/**
 The number-free canonical JSON of the task-claim vectors (scripts/documentation/task-claim-c0.ts):
 the codec, its equality, and the preimage of a domain-separated digest.  Sections 3.2.2.2 and
 3.2.3 of RFC 8785.  Texts are sequences of UTF-16 code units.
 */
module CanonicalJson {
  import opened Wrappers
  import opened Lexical

  /** A JSON value as JavaScript holds it: the fields of a record stand in insertion order; numbers are only compared. */
  datatype Value =
    | Null | Bool(b: bool) | Number(n: int) | Str(s: Text)
    | List(items: seq<Value>) | Record(fields: seq<Entry<Value>>)

  predicate NumberFree(v: Value) {
    match v
    case Number(_) => false
    case List(items) => forall i :: 0 <= i < |items| ==> NumberFree(items[i])
    case Record(fields) => forall e :: e in fields ==> NumberFree(e.value)
    case _ => true
  }

  /** No object has the same key twice. */
  predicate WellFormed(v: Value) {
    match v
    case List(items) => forall i :: 0 <= i < |items| ==> WellFormed(items[i])
    case Record(fields) => DistinctKeys(fields) && forall e :: e in fields ==> WellFormed(e.value)
    case _ => true
  }

  /******* Strings *******/

  const QUOTE: Unit := 34
  const BACKSLASH: Unit := 92
  const COMMA: Unit := 44
  const COLON: Unit := 58

  predicate Lead(u: Unit) { 0xD800 <= u < 0xDC00 }

  predicate Trail(u: Unit) { 0xDC00 <= u < 0xE000 }

  function HexDigit(n: int): Unit
    requires 0 <= n < 16
  {
    if n < 10 then 48 + n else 87 + n
  }

  function UnicodeEscape(u: Unit): Text {
    [BACKSLASH, 117, HexDigit(u / 4096), HexDigit(u / 256 % 16), HexDigit(u / 16 % 16), HexDigit(u % 16)]
  }

  /** One unit of a string literal, when it is not the lead of a surrogate pair. */
  function EscapeUnit(u: Unit): Text {
    if u == QUOTE || u == BACKSLASH then [BACKSLASH, u]
    else if u == 8 then [BACKSLASH, 98]
    else if u == 9 then [BACKSLASH, 116]
    else if u == 10 then [BACKSLASH, 110]
    else if u == 12 then [BACKSLASH, 102]
    else if u == 13 then [BACKSLASH, 114]
    else if u < 32 || Lead(u) || Trail(u) then UnicodeEscape(u)
    else [u]
  }

  /** JSON.stringify of a string, without the quotation marks; lone surrogates are escaped. */
  function EscapeAll(s: Text): Text {
    if s == [] then []
    else if |s| >= 2 && Lead(s[0]) && Trail(s[1]) then [s[0], s[1]] + EscapeAll(s[2..])
    else EscapeUnit(s[0]) + EscapeAll(s[1..])
  }

  function Quote(s: Text): Text {
    [QUOTE] + EscapeAll(s) + [QUOTE]
  }

  /******* The codec *******/

  function Join(parts: seq<Text>): Text {
    if parts == [] then [] else if |parts| == 1 then parts[0] else parts[0] + [COMMA] + Join(parts[1..])
  }

  const NULL_TEXT: Text := [110, 117, 108, 108]
  const TRUE_TEXT: Text := [116, 114, 117, 101]
  const FALSE_TEXT: Text := [102, 97, 108, 115, 101]

  function FieldText(e: Entry<Text>): Text {
    Quote(e.key) + [COLON] + e.value
  }

  function FieldTexts(es: seq<Entry<Text>>): seq<Text> {
    seq(|es|, i requires 0 <= i < |es| => FieldText(es[i]))
  }

  /** The text of a number-free value: members sorted by key. */
  function Canonical(v: Value): Text
    decreases v, 1
  {
    match v
    case Null => NULL_TEXT
    case Bool(b) => if b then TRUE_TEXT else FALSE_TEXT
    case Number(_) => []
    case Str(s) => Quote(s)
    case List(items) => [91] + Join(CanonicalItems(items)) + [93]
    case Record(fields) => [123] + Join(FieldTexts(Sort(CanonicalFields(fields)))) + [125]
  }

  function CanonicalItems(items: seq<Value>): seq<Text>
    decreases items, 0
  {
    seq(|items|, i requires 0 <= i < |items| => Canonical(items[i]))
  }

  function CanonicalFields(fields: seq<Entry<Value>>): seq<Entry<Text>>
    decreases fields, 0
  {
    seq(|fields|, i requires 0 <= i < |fields| => Entry(fields[i].key, Canonical(fields[i].value)))
  }

  /** The source's codec: it refuses numbers. */
  function Encode(v: Value): Option<Text> {
    if NumberFree(v) then Some(Canonical(v)) else None
  }

  /** The source's equality of two values, or its refusal. */
  function Equal(v: Value, w: Value): Option<bool> {
    if NumberFree(v) && NumberFree(w) then Some(Canonical(v) == Canonical(w)) else None
  }

  /******* Normal forms *******/

  /** The value with the members of every record sorted. */
  function Normalize(v: Value): Value
    decreases v, 1
  {
    match v
    case List(items) => List(NormalItems(items))
    case Record(fields) => Record(Sort(NormalFields(fields)))
    case _ => v
  }

  function NormalItems(items: seq<Value>): seq<Value>
    decreases items, 0
  {
    seq(|items|, i requires 0 <= i < |items| => Normalize(items[i]))
  }

  function NormalFields(fields: seq<Entry<Value>>): seq<Entry<Value>>
    decreases fields, 0
  {
    seq(|fields|, i requires 0 <= i < |fields| => Entry(fields[i].key, Normalize(fields[i].value)))
  }

  /** The text of a value with its members in the order they stand. */
  function Print(v: Value): Text
    decreases v, 1
  {
    match v
    case Null => NULL_TEXT
    case Bool(b) => if b then TRUE_TEXT else FALSE_TEXT
    case Number(_) => []
    case Str(s) => Quote(s)
    case List(items) => [91] + Join(Printed(items)) + [93]
    case Record(fields) => [123] + Join(PrintedFields(fields)) + [125]
  }

  function Printed(items: seq<Value>): seq<Text>
    decreases items, 0
  {
    seq(|items|, i requires 0 <= i < |items| => Print(items[i]))
  }

  function PrintedField(e: Entry<Value>): Text
    decreases e, 2
  {
    Quote(e.key) + [COLON] + Print(e.value)
  }

  function PrintedFields(fields: seq<Entry<Value>>): seq<Text>
    decreases fields, 0
  {
    seq(|fields|, i requires 0 <= i < |fields| => PrintedField(fields[i]))
  }

  /******* A parser *******/

  function HexValue(u: Unit): Option<nat> {
    if 48 <= u < 58 then Some(u - 48) else if 97 <= u < 103 then Some(u - 87) else None
  }

  datatype Parsed<+T> = Parsed(value: T, rest: Text)

  /** The unit an escape sequence stands for. */
  function ParseEscape(t: Text): (r: Option<Parsed<Unit>>)
    ensures r.Some? ==> |r.value.rest| < |t|
  {
    if |t| < 2 then None
    else if t[1] == QUOTE || t[1] == BACKSLASH then Some(Parsed(t[1], t[2..]))
    else if t[1] == 98 then Some(Parsed(8, t[2..]))
    else if t[1] == 116 then Some(Parsed(9, t[2..]))
    else if t[1] == 110 then Some(Parsed(10, t[2..]))
    else if t[1] == 102 then Some(Parsed(12, t[2..]))
    else if t[1] == 114 then Some(Parsed(13, t[2..]))
    else if t[1] == 117 && |t| >= 6 then
      match (HexValue(t[2]), HexValue(t[3]), HexValue(t[4]), HexValue(t[5]))
      case (Some(a), Some(b), Some(c), Some(d)) =>
        var n := a * 4096 + b * 256 + c * 16 + d;
        if n < 0x1_0000 then Some(Parsed(n, t[6..])) else None
      case _ => None
    else None
  }

  /** The string up to the closing quotation mark. */
  function ParseString(t: Text): (r: Option<Parsed<Text>>)
    ensures r.Some? ==> |r.value.rest| < |t|
    decreases |t|
  {
    if t == [] then None
    else if t[0] == QUOTE then Some(Parsed([], t[1..]))
    else if t[0] == BACKSLASH then
      match ParseEscape(t)
      case None => None
      case Some(Parsed(u, rest)) =>
        (match ParseString(rest)
         case None => None
         case Some(Parsed(s, after)) => Some(Parsed([u] + s, after)))
    else
      match ParseString(t[1..])
      case None => None
      case Some(Parsed(s, after)) => Some(Parsed([t[0]] + s, after))
  }

  function ParseValue(t: Text): (r: Option<Parsed<Value>>)
    ensures r.Some? ==> |r.value.rest| < |t|
    decreases |t|, 0
  {
    if t == [] then None
    else if t[0] == NULL_TEXT[0] then if NULL_TEXT <= t then Some(Parsed(Null, t[4..])) else None
    else if t[0] == TRUE_TEXT[0] then if TRUE_TEXT <= t then Some(Parsed(Bool(true), t[4..])) else None
    else if t[0] == FALSE_TEXT[0] then if FALSE_TEXT <= t then Some(Parsed(Bool(false), t[5..])) else None
    else if t[0] == QUOTE then
      match ParseString(t[1..])
      case None => None
      case Some(Parsed(s, rest)) => Some(Parsed(Str(s), rest))
    else if t[0] == 91 then
      if |t| >= 2 && t[1] == 93 then Some(Parsed(List([]), t[2..]))
      else
        match ParseItems(t[1..])
        case None => None
        case Some(Parsed(items, rest)) => Some(Parsed(List(items), rest))
    else if t[0] == 123 then
      if |t| >= 2 && t[1] == 125 then Some(Parsed(Record([]), t[2..]))
      else
        match ParseFields(t[1..])
        case None => None
        case Some(Parsed(fields, rest)) => Some(Parsed(Record(fields), rest))
    else None
  }

  function ParseItems(t: Text): (r: Option<Parsed<seq<Value>>>)
    ensures r.Some? ==> |r.value.rest| < |t|
    decreases |t|, 2
  {
    match ParseValue(t)
    case None => None
    case Some(Parsed(v, rest)) =>
      if rest == [] then None
      else if rest[0] == 93 then Some(Parsed([v], rest[1..]))
      else if rest[0] != COMMA then None
      else match ParseItems(rest[1..])
        case None => None
        case Some(Parsed(vs, after)) => Some(Parsed([v] + vs, after))
  }

  function ParseField(t: Text): (r: Option<Parsed<Entry<Value>>>)
    ensures r.Some? ==> |r.value.rest| < |t|
    decreases |t|, 1
  {
    if t == [] || t[0] != QUOTE then None
    else match ParseString(t[1..])
      case None => None
      case Some(Parsed(key, rest)) =>
        if rest == [] || rest[0] != COLON then None
        else match ParseValue(rest[1..])
          case None => None
          case Some(Parsed(v, after)) => Some(Parsed(Entry(key, v), after))
  }

  function ParseFields(t: Text): (r: Option<Parsed<seq<Entry<Value>>>>)
    ensures r.Some? ==> |r.value.rest| < |t|
    decreases |t|, 2
  {
    match ParseField(t)
    case None => None
    case Some(Parsed(e, rest)) =>
      if rest == [] then None
      else if rest[0] == 125 then Some(Parsed([e], rest[1..]))
      else if rest[0] != COMMA then None
      else match ParseFields(rest[1..])
        case None => None
        case Some(Parsed(es, after)) => Some(Parsed([e] + es, after))
  }
}
