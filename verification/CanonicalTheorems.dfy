/**
 The canonical codec is a faithful encoding: it can be parsed back, whatever follows it; it depends
 on the value and not on the order of keys; and a digest preimage determines domain and value.
 */
module CanonicalTheorems {
  import opened Wrappers
  import opened Lexical
  import opened CanonicalJson

  /******* Strings parse back *******/

  lemma HexParses(n: int)
    requires 0 <= n < 16
    ensures HexValue(HexDigit(n)) == Some(n)
  {
  }

  /** A unit is its four hexadecimal digits. */
  lemma HexDigitsOf(u: Unit)
    ensures 0 <= u / 4096 < 16 && u / 4096 * 4096 + u / 256 % 16 * 256 + u / 16 % 16 * 16 + u % 16 == u
  {
  }

  lemma UnicodeEscapeParses(u: Unit, rest: Text)
    ensures ParseEscape(UnicodeEscape(u) + rest) == Some(Parsed(u, rest))
  {
    HexDigitsOf(u);
    var a, b, c, d := u / 4096, u / 256 % 16, u / 16 % 16, u % 16;
    HexParses(a); HexParses(b); HexParses(c); HexParses(d);
    FourDigitsParse(a, b, c, d, rest);
  }

  lemma FourDigitsParse(a: int, b: int, c: int, d: int, rest: Text)
    requires 0 <= a < 16 && 0 <= b < 16 && 0 <= c < 16 && 0 <= d < 16
    ensures var t := [BACKSLASH, 117, HexDigit(a), HexDigit(b), HexDigit(c), HexDigit(d)] + rest;
            ParseEscape(t) == Some(Parsed(a * 4096 + b * 256 + c * 16 + d, rest))
  {
    HexParses(a); HexParses(b); HexParses(c); HexParses(d);
    var t := [BACKSLASH, 117, HexDigit(a), HexDigit(b), HexDigit(c), HexDigit(d)] + rest;
    assert t[6..] == rest;
  }

  lemma EscapeParses(u: Unit, rest: Text)
    requires EscapeUnit(u) != [u]
    ensures EscapeUnit(u)[0] == BACKSLASH
    ensures ParseEscape(EscapeUnit(u) + rest) == Some(Parsed(u, rest))
  {
    if |EscapeUnit(u)| == 6 {
      UnicodeEscapeParses(u, rest);
    } else {
      assert (EscapeUnit(u) + rest)[2..] == rest;
    }
  }

  /** The rest of a string literal reads as s and leaves the rest. */
  predicate Reads(t: Text, s: Text, rest: Text) {
    ParseString(t) == Some(Parsed(s, rest))
  }

  lemma PlainUnitReads(u: Unit, t: Text, s: Text, rest: Text)
    requires u != QUOTE && u != BACKSLASH && Reads(t, s, rest)
    ensures Reads([u] + t, [u] + s, rest)
  {
    assert ([u] + t)[1..] == t;
  }

  lemma EscapedUnitReads(u: Unit, t: Text, s: Text, rest: Text)
    requires Reads(t, s, rest)
    ensures Reads(EscapeUnit(u) + t, [u] + s, rest)
  {
    if EscapeUnit(u) == [u] {
      PlainUnitReads(u, t, s, rest);
    } else {
      EscapeParses(u, t);
    }
  }

  lemma PairReads(lead: Unit, trail: Unit, t: Text, s: Text, rest: Text)
    requires Lead(lead) && Trail(trail) && Reads(t, s, rest)
    ensures Reads([lead, trail] + t, [lead, trail] + s, rest)
  {
    PlainUnitReads(trail, t, s, rest);
    PlainUnitReads(lead, [trail] + t, [trail] + s, rest);
    assert [lead, trail] + t == [lead] + ([trail] + t);
    assert [lead, trail] + s == [lead] + ([trail] + s);
  }

  lemma {:induction false} StringReads(s: Text, rest: Text)
    ensures Reads(EscapeAll(s) + [QUOTE] + rest, s, rest)
    decreases |s|
  {
    if s == [] {
      assert (EscapeAll(s) + [QUOTE] + rest)[1..] == rest;
    } else if |s| >= 2 && Lead(s[0]) && Trail(s[1]) {
      StringReads(s[2..], rest);
      PairReads(s[0], s[1], EscapeAll(s[2..]) + [QUOTE] + rest, s[2..], rest);
      Regroup([s[0], s[1]], EscapeAll(s[2..]), [QUOTE], rest);
      assert s == [s[0], s[1]] + s[2..];
    } else {
      StringReads(s[1..], rest);
      EscapedUnitReads(s[0], EscapeAll(s[1..]) + [QUOTE] + rest, s[1..], rest);
      Regroup(EscapeUnit(s[0]), EscapeAll(s[1..]), [QUOTE], rest);
      assert s == [s[0]] + s[1..];
    }
  }

  lemma Regroup(a: Text, b: Text, c: Text, d: Text)
    ensures a + b + c + d == a + (b + (c + d)) == a + (b + c + d)
  {
  }

  /** Every string literal parses back, whatever follows it. */
  lemma StringParses(s: Text, rest: Text)
    ensures ParseString(EscapeAll(s) + [QUOTE] + rest) == Some(Parsed(s, rest))
  {
    StringReads(s, rest);
  }

  lemma QuoteParses(s: Text, rest: Text)
    ensures (Quote(s) + rest)[0] == QUOTE
    ensures ParseString((Quote(s) + rest)[1..]) == Some(Parsed(s, rest))
  {
    StringParses(s, rest);
    assert (Quote(s) + rest)[1..] == EscapeAll(s) + [QUOTE] + rest;
  }

  /******* Values parse back *******/

  /** The first unit of a value's text says which kind of value follows. */
  lemma FirstUnit(v: Value)
    requires NumberFree(v)
    ensures Print(v) != []
    ensures Print(v)[0] == match v
            case Null => 110
            case Bool(b) => if b then 116 else 102
            case Str(_) => QUOTE
            case List(_) => 91
            case Record(_) => 123
            case Number(_) => 0
  {
  }

  lemma JoinStep(parts: seq<Text>, end: Text)
    requires parts != []
    ensures Join(parts) + end == parts[0] + (if |parts| == 1 then end else [COMMA] + (Join(parts[1..]) + end))
  {
    if |parts| > 1 {
      Regroup(parts[0], [COMMA], Join(parts[1..]), end);
    }
  }

  lemma PrintedStep(items: seq<Value>, end: Text)
    requires items != []
    ensures Join(Printed(items)) + end ==
            Print(items[0]) + (if |items| == 1 then end else [COMMA] + (Join(Printed(items[1..])) + end))
  {
    PrintedTail(items);
    JoinStep(Printed(items), end);
  }

  lemma PrintedTail(items: seq<Value>)
    requires items != []
    ensures Printed(items)[1..] == Printed(items[1..])
  {
  }

  lemma PrintedFieldsStep(fields: seq<Entry<Value>>, end: Text)
    requires fields != []
    ensures Join(PrintedFields(fields)) + end ==
            PrintedField(fields[0]) + (if |fields| == 1 then end else [COMMA] + (Join(PrintedFields(fields[1..])) + end))
  {
    PrintedFieldsTail(fields);
    JoinStep(PrintedFields(fields), end);
  }

  lemma PrintedFieldsTail(fields: seq<Entry<Value>>)
    requires fields != []
    ensures PrintedFields(fields)[1..] == PrintedFields(fields[1..])
  {
  }

  /** Parsing the text of a number-free value gives the value back, whatever text follows. */
  lemma {:induction false} PrintParses(v: Value, rest: Text)
    requires NumberFree(v)
    ensures ParseValue(Print(v) + rest) == Some(Parsed(v, rest))
    decreases v, 0
  {
    var t := Print(v) + rest;
    FirstUnit(v);
    match v
    case Null =>
      assert t[4..] == rest;
    case Bool(b) =>
      assert t[if b then 4 else 5..] == rest;
    case Str(s) =>
      QuoteParses(s, rest);
    case List(items) =>
      ListParses(v, items, rest);
    case Record(fields) =>
      RecordParses(v, fields, rest);
  }

  lemma {:induction false} ListParses(parent: Value, items: seq<Value>, rest: Text)
    requires parent == List(items) && NumberFree(parent)
    ensures ParseValue(Print(parent) + rest) == Some(Parsed(parent, rest))
    decreases items, 1
  {
    if items == [] {
      assert Print(parent) + rest == [91, 93] + rest;
      assert ([91, 93] + rest)[2..] == rest;
    } else {
      var inner := Join(Printed(items)) + ([93] + rest);
      assert Print(parent) + rest == [91] + inner by {
        Regroup([91], Join(Printed(items)), [93], rest);
      }
      ItemsParse(items, rest);
      FirstUnit(items[0]);
      PrintedStep(items, [93] + rest);
      assert inner[0] == Print(items[0])[0];
      BracketParses(inner);
    }
  }

  lemma BracketParses(inner: Text)
    requires inner != [] && inner[0] != 93 && ParseItems(inner).Some?
    ensures ParseValue([91] + inner) == Some(Parsed(List(ParseItems(inner).value.value), ParseItems(inner).value.rest))
  {
    assert ([91] + inner)[1..] == inner;
  }

  lemma {:induction false} ItemsParse(items: seq<Value>, rest: Text)
    requires items != [] && forall i :: 0 <= i < |items| ==> NumberFree(items[i])
    ensures ParseItems(Join(Printed(items)) + ([93] + rest)) == Some(Parsed(items, rest))
    decreases items, 0
  {
    PrintedStep(items, [93] + rest);
    if |items| == 1 {
      PrintParses(items[0], [93] + rest);
      LastItemParses(Join(Printed(items)) + ([93] + rest), items[0], rest);
      assert [items[0]] == items;
    } else {
      var more := Join(Printed(items[1..])) + ([93] + rest);
      PrintParses(items[0], [COMMA] + more);
      ItemsParse(items[1..], rest);
      MoreItemsParse(Join(Printed(items)) + ([93] + rest), items[0], more);
      assert [items[0]] + items[1..] == items;
    }
  }

  lemma LastItemParses(t: Text, v: Value, rest: Text)
    requires ParseValue(t) == Some(Parsed(v, [93] + rest))
    ensures ParseItems(t) == Some(Parsed([v], rest))
  {
    assert ([93] + rest)[1..] == rest;
  }

  lemma MoreItemsParse(t: Text, v: Value, more: Text)
    requires ParseValue(t) == Some(Parsed(v, [COMMA] + more)) && ParseItems(more).Some?
    ensures ParseItems(t) == Some(Parsed([v] + ParseItems(more).value.value, ParseItems(more).value.rest))
  {
    assert ([COMMA] + more)[1..] == more;
  }

  lemma {:induction false} RecordParses(parent: Value, fields: seq<Entry<Value>>, rest: Text)
    requires parent == Record(fields) && NumberFree(parent)
    ensures ParseValue(Print(parent) + rest) == Some(Parsed(parent, rest))
    decreases fields, 1
  {
    if fields == [] {
      assert Print(parent) + rest == [123, 125] + rest;
      assert ([123, 125] + rest)[2..] == rest;
    } else {
      var inner := Join(PrintedFields(fields)) + ([125] + rest);
      assert Print(parent) + rest == [123] + inner by {
        Regroup([123], Join(PrintedFields(fields)), [125], rest);
      }
      FieldsParse(fields, rest);
      PrintedFieldsStep(fields, [125] + rest);
      assert inner[0] == PrintedField(fields[0])[0];
      BraceParses(inner);
    }
  }

  lemma BraceParses(inner: Text)
    requires inner != [] && inner[0] != 125 && ParseFields(inner).Some?
    ensures ParseValue([123] + inner) == Some(Parsed(Record(ParseFields(inner).value.value), ParseFields(inner).value.rest))
  {
    assert ([123] + inner)[1..] == inner;
  }

  lemma {:induction false} FieldParses(e: Entry<Value>, rest: Text)
    requires NumberFree(e.value)
    ensures ParseField(PrintedField(e) + rest) == Some(Parsed(e, rest))
    decreases e, 0
  {
    var inner := Print(e.value) + rest;
    FieldText(e, rest);
    QuoteParses(e.key, [COLON] + inner);
    PrintParses(e.value, rest);
    FieldStep(PrintedField(e) + rest, e.key, inner);
  }

  lemma FieldText(e: Entry<Value>, rest: Text)
    ensures PrintedField(e) + rest == Quote(e.key) + ([COLON] + (Print(e.value) + rest))
  {
    Regroup(Quote(e.key), [COLON], Print(e.value), rest);
  }

  lemma FieldStep(t: Text, key: Text, inner: Text)
    requires t != [] && t[0] == QUOTE && ParseString(t[1..]) == Some(Parsed(key, [COLON] + inner))
    requires ParseValue(inner).Some?
    ensures ParseField(t) == Some(Parsed(Entry(key, ParseValue(inner).value.value), ParseValue(inner).value.rest))
  {
    assert ([COLON] + inner)[1..] == inner;
  }

  lemma {:induction false} FieldsParse(fields: seq<Entry<Value>>, rest: Text)
    requires fields != [] && forall e :: e in fields ==> NumberFree(e.value)
    ensures ParseFields(Join(PrintedFields(fields)) + ([125] + rest)) == Some(Parsed(fields, rest))
    decreases fields, 0
  {
    PrintedFieldsStep(fields, [125] + rest);
    if |fields| == 1 {
      FieldParses(fields[0], [125] + rest);
      LastFieldParses(Join(PrintedFields(fields)) + ([125] + rest), fields[0], rest);
      assert [fields[0]] == fields;
    } else {
      var more := Join(PrintedFields(fields[1..])) + ([125] + rest);
      FieldParses(fields[0], [COMMA] + more);
      FieldsParse(fields[1..], rest);
      MoreFieldsParse(Join(PrintedFields(fields)) + ([125] + rest), fields[0], more);
      assert [fields[0]] + fields[1..] == fields;
    }
  }

  lemma LastFieldParses(t: Text, e: Entry<Value>, rest: Text)
    requires ParseField(t) == Some(Parsed(e, [125] + rest))
    ensures ParseFields(t) == Some(Parsed([e], rest))
  {
    assert ([125] + rest)[1..] == rest;
  }

  lemma MoreFieldsParse(t: Text, e: Entry<Value>, more: Text)
    requires ParseField(t) == Some(Parsed(e, [COMMA] + more)) && ParseFields(more).Some?
    ensures ParseFields(t) == Some(Parsed([e] + ParseFields(more).value.value, ParseFields(more).value.rest))
  {
    assert ([COMMA] + more)[1..] == more;
  }

  /******* The canonical text is the text of the normal form *******/

  lemma {:induction false} CanonicalIsPrint(v: Value)
    ensures Canonical(v) == Print(Normalize(v))
  {
    match v
    case List(items) =>
      forall i | 0 <= i < |items| ensures Canonical(items[i]) == Print(Normalize(items[i])) {
        CanonicalIsPrint(items[i]);
      }
      assert CanonicalItems(items) == Printed(NormalItems(items));
    case Record(fields) =>
      forall i | 0 <= i < |fields| ensures Canonical(fields[i].value) == Print(Normalize(fields[i].value)) {
        CanonicalIsPrint(fields[i].value);
      }
      var normal, rendered := NormalFields(fields), CanonicalFields(fields);
      SortByKeyOnly(normal, rendered, Print);
      assert FieldTexts(Sort(rendered)) == PrintedFields(Sort(normal));
    case _ =>
  }

  lemma {:induction false} NormalizeKeeps(v: Value)
    requires WellFormed(v)
    ensures WellFormed(Normalize(v)) && NumberFree(Normalize(v)) == NumberFree(v)
  {
    match v
    case List(items) =>
      forall i | 0 <= i < |items|
        ensures WellFormed(NormalItems(items)[i]) && NumberFree(NormalItems(items)[i]) == NumberFree(items[i])
      {
        NormalizeKeeps(items[i]);
      }
    case Record(fields) =>
      forall e | e in fields ensures WellFormed(Normalize(e.value)) && NumberFree(Normalize(e.value)) == NumberFree(e.value) {
        NormalizeKeeps(e.value);
      }
      NormalFieldsSorted(fields);
      forall e | e in fields ensures Entry(e.key, Normalize(e.value)) in Sort(NormalFields(fields)) {
        NormalFieldOf(fields, e);
      }
    case _ =>
  }

  lemma NormalFieldOf(fields: seq<Entry<Value>>, e: Entry<Value>)
    requires e in fields
    ensures Entry(e.key, Normalize(e.value)) in NormalFields(fields)
  {
    var i :| 0 <= i < |fields| && fields[i] == e;
    assert NormalFields(fields)[i] == Entry(e.key, Normalize(e.value));
  }

  lemma NormalFieldsSorted(fields: seq<Entry<Value>>)
    requires DistinctKeys(fields)
    ensures var normal := Sort(NormalFields(fields));
            && Ascending(normal) && DistinctKeys(normal)
            && SameElements(normal, NormalFields(fields))
            && forall n :: n in normal ==> exists e :: e in fields && n == Entry(e.key, Normalize(e.value))
  {
    var normal := NormalFields(fields);
    SortSorts(normal);
    AscendingIsDistinct(Sort(normal));
    forall n | n in Sort(normal) ensures exists e :: e in fields && n == Entry(e.key, Normalize(e.value)) {
      var i :| 0 <= i < |normal| && normal[i] == n;
      assert fields[i] in fields;
    }
  }

  /** The canonical text of any number-free value, followed by anything, parses to its normal form. */
  lemma CanonicalParses(v: Value, rest: Text)
    requires WellFormed(v) && NumberFree(v)
    ensures Encode(v).Some? && ParseValue(Encode(v).value + rest) == Some(Parsed(Normalize(v), rest))
  {
    CanonicalIsPrint(v);
    NormalizeKeeps(v);
    PrintParses(Normalize(v), rest);
  }

  /******* What a value means *******/

  /** A value without the order of its members. */
  datatype Meaning =
    | MNull | MBool(b: bool) | MNumber(n: int) | MStr(s: Text)
    | MList(items: seq<Meaning>) | MRecord(fields: map<Text, Meaning>)

  function MeaningOf(v: Value): Meaning
    requires WellFormed(v)
    decreases v, 1
  {
    match v
    case Null => MNull
    case Bool(b) => MBool(b)
    case Number(n) => MNumber(n)
    case Str(s) => MStr(s)
    case List(items) => MList(seq(|items|, i requires 0 <= i < |items| => MeaningOf(items[i])))
    case Record(fields) => MRecord(MeaningOfFields(fields))
  }

  function MeaningOfFields(fields: seq<Entry<Value>>): map<Text, Meaning>
    requires DistinctKeys(fields) && forall e :: e in fields ==> WellFormed(e.value)
    decreases fields, 0
  {
    map i | 0 <= i < |fields| :: fields[i].key := MeaningOf(fields[i].value)
  }

  /** Equal texts come only from equal meanings, because the text parses back to the normal form. */
  lemma {:induction false} MeaningOfNormal(v: Value)
    requires WellFormed(v)
    ensures WellFormed(Normalize(v)) && MeaningOf(Normalize(v)) == MeaningOf(v)
  {
    NormalizeKeeps(v);
    match v
    case List(items) =>
      forall i | 0 <= i < |items|
        ensures WellFormed(Normalize(items[i])) && MeaningOf(Normalize(items[i])) == MeaningOf(items[i])
      {
        MeaningOfNormal(items[i]);
      }
      assert forall i :: 0 <= i < |items| ==> NormalItems(items)[i] == Normalize(items[i]);
    case Record(fields) =>
      forall e | e in fields ensures WellFormed(Normalize(e.value)) && MeaningOf(Normalize(e.value)) == MeaningOf(e.value) {
        MeaningOfNormal(e.value);
      }
      NormalFieldsMeaning(fields);
    case _ =>
  }

  lemma NormalFieldsMeaning(fields: seq<Entry<Value>>)
    requires DistinctKeys(fields) && forall e :: e in fields ==> WellFormed(e.value)
    requires forall e :: e in fields ==> WellFormed(Normalize(e.value)) && MeaningOf(Normalize(e.value)) == MeaningOf(e.value)
    ensures WellFormed(Record(Sort(NormalFields(fields))))
    ensures MeaningOfFields(Sort(NormalFields(fields))) == MeaningOfFields(fields)
  {
    var normal := NormalFields(fields);
    NormalFieldsSorted(fields);
    forall n | n in normal ensures WellFormed(n.value) {
      assert n in Sort(normal);
    }
    PointwiseMeaning(normal, fields);
    SameElementsSameMeaning(Sort(normal), normal);
  }

  predicate AllWellFormed(fields: seq<Entry<Value>>) {
    DistinctKeys(fields) && forall e :: e in fields ==> WellFormed(e.value)
  }

  /** The map has this field. */
  predicate HasField(meaning: map<Text, Meaning>, e: Entry<Value>)
    requires WellFormed(e.value)
  {
    e.key in meaning && meaning[e.key] == MeaningOf(e.value)
  }

  lemma FieldIsThere(fields: seq<Entry<Value>>, i: nat)
    requires AllWellFormed(fields) && i < |fields|
    ensures HasField(MeaningOfFields(fields), fields[i])
  {
  }

  /** A map that has every field, and no other key, is the meaning of the fields. */
  lemma FieldsAreMeaning(fields: seq<Entry<Value>>, meaning: map<Text, Meaning>)
    requires AllWellFormed(fields)
    requires forall i :: 0 <= i < |fields| ==> HasField(meaning, fields[i])
    requires forall key :: key in meaning ==> exists i :: 0 <= i < |fields| && fields[i].key == key
    ensures MeaningOfFields(fields) == meaning
  {
    forall i | 0 <= i < |fields| ensures HasField(MeaningOfFields(fields), fields[i]) {
      FieldIsThere(fields, i);
    }
  }

  lemma PointwiseMeaning(a: seq<Entry<Value>>, b: seq<Entry<Value>>)
    requires AllWellFormed(a) && AllWellFormed(b)
    requires |a| == |b|
    requires forall i :: 0 <= i < |a| ==> a[i].key == b[i].key && MeaningOf(a[i].value) == MeaningOf(b[i].value)
    ensures MeaningOfFields(a) == MeaningOfFields(b)
  {
    forall i | 0 <= i < |a| ensures HasField(MeaningOfFields(b), a[i]) {
      FieldIsThere(b, i);
    }
    forall key | key in MeaningOfFields(b) ensures exists i :: 0 <= i < |a| && a[i].key == key {
      var i := FieldWithKey(b, key, MeaningOfFields(b));
      assert a[i].key == key;
    }
    FieldsAreMeaning(a, MeaningOfFields(b));
  }

  lemma SameElementsSameMeaning(a: seq<Entry<Value>>, b: seq<Entry<Value>>)
    requires AllWellFormed(a) && AllWellFormed(b)
    requires SameElements(a, b)
    ensures MeaningOfFields(a) == MeaningOfFields(b)
  {
    forall i | 0 <= i < |a| ensures HasField(MeaningOfFields(b), a[i]) {
      assert a[i] in b;
      var j :| 0 <= j < |b| && b[j] == a[i];
      FieldIsThere(b, j);
    }
    forall key | key in MeaningOfFields(b) ensures exists i :: 0 <= i < |a| && a[i].key == key {
      var j := FieldWithKey(b, key, MeaningOfFields(b));
      assert b[j] in a;
      var i :| 0 <= i < |a| && a[i] == b[j];
    }
    FieldsAreMeaning(a, MeaningOfFields(b));
  }

  /** Equal meanings have one normal form. */
  lemma {:induction false} MeaningDeterminesNormal(v: Value, w: Value)
    requires WellFormed(v) && WellFormed(w) && MeaningOf(v) == MeaningOf(w)
    ensures Normalize(v) == Normalize(w)
    decreases v
  {
    match v
    case List(items) =>
      var others := w.items;
      assert |MeaningOf(v).items| == |items| && |MeaningOf(w).items| == |others|;
      forall i | 0 <= i < |items| ensures Normalize(items[i]) == Normalize(others[i]) {
        assert MeaningOf(v).items[i] == MeaningOf(w).items[i];
        MeaningDeterminesNormal(items[i], others[i]);
      }
      assert NormalItems(items) == NormalItems(others);
    case Record(fields) =>
      var others := w.fields;
      var a, b := NormalFields(fields), NormalFields(others);
      forall i | 0 <= i < |a| ensures a[i] in b {
        var j := FieldWithKey(others, fields[i].key, MeaningOfFields(fields));
        FieldNormals(fields, others, i, j);
      }
      forall j | 0 <= j < |b| ensures b[j] in a {
        var i := FieldWithKey(fields, others[j].key, MeaningOfFields(others));
        FieldNormals(fields, others, i, j);
      }
      SortSorts(a);
      SortSorts(b);
      AscendingUnique(Sort(a), Sort(b));
    case _ =>
  }

  lemma {:induction false} FieldNormals(fields: seq<Entry<Value>>, others: seq<Entry<Value>>, i: nat, j: nat)
    requires WellFormed(Record(fields)) && WellFormed(Record(others))
    requires MeaningOfFields(fields) == MeaningOfFields(others)
    requires i < |fields| && j < |others| && fields[i].key == others[j].key
    ensures NormalFields(fields)[i] == NormalFields(others)[j]
    decreases fields
  {
    FieldIsThere(fields, i);
    FieldIsThere(others, j);
    MeaningDeterminesNormal(fields[i].value, others[j].value);
  }

  lemma FieldWithKey(fields: seq<Entry<Value>>, key: Text, meaning: map<Text, Meaning>) returns (i: nat)
    requires DistinctKeys(fields) && forall e :: e in fields ==> WellFormed(e.value)
    requires meaning == MeaningOfFields(fields) && key in meaning
    ensures i < |fields| && fields[i].key == key && MeaningOf(fields[i].value) == meaning[key]
  {
    i :| 0 <= i < |fields| && fields[i].key == key;
  }

  /** Sorting every record gives one form for values that differ only in key order, numbers included. */
  lemma SortedFormIff(v: Value, w: Value)
    requires WellFormed(v) && WellFormed(w)
    ensures Normalize(v) == Normalize(w) <==> MeaningOf(v) == MeaningOf(w)
  {
    MeaningOfNormal(v);
    MeaningOfNormal(w);
    if MeaningOf(v) == MeaningOf(w) {
      MeaningDeterminesNormal(v, w);
    }
  }

  /** The codec's equality decides equality of values: key order never matters, and nothing else is lost. */
  lemma EqualIffSameMeaning(v: Value, w: Value)
    requires WellFormed(v) && WellFormed(w) && NumberFree(v) && NumberFree(w)
    ensures Equal(v, w) == Some(MeaningOf(v) == MeaningOf(w))
  {
    if Canonical(v) == Canonical(w) {
      CanonicalParses(v, []);
      CanonicalParses(w, []);
      MeaningOfNormal(v);
      MeaningOfNormal(w);
    }
    if MeaningOf(v) == MeaningOf(w) {
      MeaningDeterminesNormal(v, w);
      CanonicalIsPrint(v);
      CanonicalIsPrint(w);
    }
  }

  /******* Domain separation *******/

  predicate NoNul(t: Text) {
    forall i :: 0 <= i < |t| ==> t[i] != 0
  }

  lemma {:induction false} EscapeHasNoNul(s: Text)
    ensures NoNul(EscapeAll(s))
    decreases |s|
  {
    if s == [] {
    } else if |s| >= 2 && Lead(s[0]) && Trail(s[1]) {
      EscapeHasNoNul(s[2..]);
    } else {
      EscapeHasNoNul(s[1..]);
    }
  }

  lemma {:induction false} JoinHasNoNul(parts: seq<Text>)
    requires forall i :: 0 <= i < |parts| ==> NoNul(parts[i])
    ensures NoNul(Join(parts))
  {
    if |parts| > 1 {
      JoinHasNoNul(parts[1..]);
    }
  }

  lemma {:induction false} PrintHasNoNul(v: Value)
    ensures NoNul(Print(v))
  {
    match v
    case Str(s) =>
      EscapeHasNoNul(s);
    case List(items) =>
      forall i | 0 <= i < |items| ensures NoNul(Printed(items)[i]) {
        PrintHasNoNul(items[i]);
      }
      JoinHasNoNul(Printed(items));
    case Record(fields) =>
      forall i | 0 <= i < |fields| ensures NoNul(PrintedFields(fields)[i]) {
        EscapeHasNoNul(fields[i].key);
        PrintHasNoNul(fields[i].value);
      }
      JoinHasNoNul(PrintedFields(fields));
    case _ =>
  }

  /** What the digest of a value in a domain is taken over. */
  function Preimage(domain: Text, v: Value): Text {
    domain + [0] + Canonical(v)
  }

  /** The preimage determines domain and value, for any domain text at all: the last NUL separates them. */
  lemma PreimageDetermines(domain: Text, v: Value, other: Text, w: Value)
    requires WellFormed(v) && WellFormed(w) && NumberFree(v) && NumberFree(w)
    ensures Preimage(domain, v) == Preimage(other, w) <==> domain == other && MeaningOf(v) == MeaningOf(w)
  {
    EqualIffSameMeaning(v, w);
    CanonicalIsPrint(v);
    CanonicalIsPrint(w);
    PrintHasNoNul(Normalize(v));
    PrintHasNoNul(Normalize(w));
    if Preimage(domain, v) == Preimage(other, w) {
      LastNul(domain, Canonical(v), other, Canonical(w));
    }
  }

  lemma LastNul(a: Text, b: Text, c: Text, d: Text)
    requires a + [0] + b == c + [0] + d && NoNul(b) && NoNul(d)
    ensures a == c && b == d
  {
    var t := a + [0] + b;
    assert t[|a|] == 0 && t[|c|] == 0;
    assert forall i :: |a| < i < |t| ==> t[i] == b[i - |a| - 1];
    assert forall i :: |c| < i < |t| ==> t[i] == d[i - |c| - 1];
    assert |a| == |c|;
    assert a == t[..|a|] && c == t[..|c|];
    assert b == t[|a| + 1..] && d == t[|c| + 1..];
  }
}
