/**
 What the canonical text of a value is, said unit by unit and without the codec: sections 3.2.2 and 3.2.3 of
 RFC 8785.  The codec writes exactly this text.
 */
module CanonicalForm {
  import opened Wrappers
  import opened Lexical
  import opened CanonicalJson

  /******* Strings *******/

  predicate Ascii(s: string) {
    forall i :: 0 <= i < |s| ==> s[i] as int < 128
  }

  function Units(s: string): Text
    requires Ascii(s)
  {
    seq(|s|, i requires 0 <= i < |s| => s[i] as int)
  }

  /** The units with a two-unit escape, and its letter. */
  const SHORT: map<int, char> :=
    map[8 := 'b', 9 := 't', 10 := 'n', 12 := 'f', 13 := 'r', 34 := '\"', 92 := '\\']

  const HEX := "0123456789abcdef"

  /** Unit i is half of a surrogate pair. */
  predicate Paired(s: Text, i: nat)
    requires i < |s|
  {
    || (0xD800 <= s[i] <= 0xDBFF && i + 1 < |s| && 0xDC00 <= s[i + 1] <= 0xDFFF)
    || (0xDC00 <= s[i] <= 0xDFFF && i > 0 && 0xD800 <= s[i - 1] <= 0xDBFF)
  }

  /** Four hexadecimal digits, most significant first, in lower case. */
  ghost predicate Hexadecimal(u: Unit, t: Text) {
    exists a, b, c, d :: DigitsOf(u, a, b, c, d, t)
  }

  ghost predicate DigitsOf(u: Unit, a: int, b: int, c: int, d: int, t: Text) {
    && 0 <= a < 16 && 0 <= b < 16 && 0 <= c < 16 && 0 <= d < 16
    && u == ((a * 16 + b) * 16 + c) * 16 + d
    && t == [HEX[a] as int, HEX[b] as int, HEX[c] as int, HEX[d] as int]
  }

  /** How unit i of a string is written. */
  ghost predicate Spells(s: Text, i: nat, t: Text)
    requires i < |s|
  {
    if s[i] in SHORT then t == ['\\' as int, SHORT[s[i]] as int]
    else if s[i] < 32 || (0xD800 <= s[i] <= 0xDFFF && !Paired(s, i)) then
      |t| == 6 && t[..2] == ['\\' as int, 'u' as int] && Hexadecimal(s[i], t[2..])
    else t == [s[i]]
  }

  ghost predicate SpelledBy(s: Text, pieces: seq<Text>) {
    |pieces| == |s| && forall i :: 0 <= i < |s| ==> Spells(s, i, pieces[i])
  }

  ghost function Concat(pieces: seq<Text>): Text {
    if pieces == [] then [] else Concat(pieces[..|pieces| - 1]) + pieces[|pieces| - 1]
  }

  ghost predicate StringText(s: Text, t: Text) {
    exists pieces :: SpelledBy(s, pieces) && t == ['\"' as int] + Concat(pieces) + ['\"' as int]
  }

  lemma HexIsDigit(n: int)
    requires 0 <= n < 16
    ensures HEX[n] as int == HexDigit(n)
  {
  }

  lemma FourDigits(u: Unit)
    ensures var a, b, c, d := u / 4096, u / 256 % 16, u / 16 % 16, u % 16;
            && 0 <= a < 16 && 0 <= b < 16 && 0 <= c < 16 && 0 <= d < 16
            && u == ((a * 16 + b) * 16 + c) * 16 + d
  {
  }

  lemma DigitsUnique(u: Unit, a: int, b: int, c: int, d: int)
    requires 0 <= a < 16 && 0 <= b < 16 && 0 <= c < 16 && 0 <= d < 16
    requires u == ((a * 16 + b) * 16 + c) * 16 + d
    ensures a == u / 4096 && b == u / 256 % 16 && c == u / 16 % 16 && d == u % 16
  {
    assert u / 16 == (a * 16 + b) * 16 + c;
    assert u / 256 == a * 16 + b;
  }

  lemma UnicodeEscapeIff(u: Unit, t: Text)
    ensures |t| == 6 && t[..2] == ['\\' as int, 'u' as int] && Hexadecimal(u, t[2..]) <==> t == UnicodeEscape(u)
  {
    var a, b, c, d := u / 4096, u / 256 % 16, u / 16 % 16, u % 16;
    FourDigits(u);
    HexIsDigit(a);
    HexIsDigit(b);
    HexIsDigit(c);
    HexIsDigit(d);
    if t == UnicodeEscape(u) {
      assert DigitsOf(u, a, b, c, d, t[2..]);
    }
    if |t| == 6 && t[..2] == ['\\' as int, 'u' as int] && Hexadecimal(u, t[2..]) {
      var e, f, g, h :| DigitsOf(u, e, f, g, h, t[2..]);
      DigitsUnique(u, e, f, g, h);
      assert t == t[..2] + t[2..];
    }
  }

  /** The piece the codec writes for unit i. */
  ghost function Piece(s: Text, i: nat): Text
    requires i < |s|
  {
    if Paired(s, i) then [s[i]] else EscapeUnit(s[i])
  }

  lemma SpellsIff(s: Text, i: nat, t: Text)
    requires i < |s|
    ensures Spells(s, i, t) <==> t == Piece(s, i)
  {
    UnicodeEscapeIff(s[i], t);
  }

  ghost function Pieces(s: Text): seq<Text> {
    seq(|s|, i requires 0 <= i < |s| => Piece(s, i))
  }

  lemma SpelledIff(s: Text, pieces: seq<Text>)
    ensures SpelledBy(s, pieces) <==> pieces == Pieces(s)
  {
    forall i, t | 0 <= i < |s| ensures Spells(s, i, t) <==> t == Piece(s, i) {
      SpellsIff(s, i, t);
    }
  }

  lemma {:induction false} ConcatCons(piece: Text, pieces: seq<Text>)
    ensures Concat([piece] + pieces) == piece + Concat(pieces)
  {
    var all := [piece] + pieces;
    if pieces != [] {
      var n := |pieces| - 1;
      assert all[..|all| - 1] == [piece] + pieces[..n];
      ConcatCons(piece, pieces[..n]);
    }
  }

  lemma SuffixPiece(s: Text, k: nat, i: nat)
    requires k <= i < |s| && (k == 0 || i > k || !(0xD800 <= s[k - 1] <= 0xDBFF && 0xDC00 <= s[k] <= 0xDFFF))
    ensures Piece(s[k..], i - k) == Piece(s, i)
  {
  }

  lemma SuffixPieces(s: Text, k: nat)
    requires k <= |s|
    requires 0 < k < |s| ==> !(0xD800 <= s[k - 1] <= 0xDBFF && 0xDC00 <= s[k] <= 0xDFFF)
    ensures Pieces(s)[k..] == Pieces(s[k..])
  {
    forall i | k <= i < |s| ensures Piece(s[k..], i - k) == Piece(s, i) {
      SuffixPiece(s, k, i);
    }
  }

  lemma PairFirst(s: Text)
    requires |s| >= 2 && Lead(s[0]) && Trail(s[1])
    ensures Concat(Pieces(s)) == [s[0], s[1]] + Concat(Pieces(s[2..]))
  {
    var rest := Pieces(s[2..]);
    SuffixPieces(s, 2);
    assert Pieces(s) == [[s[0]]] + ([[s[1]]] + rest);
    ConcatCons([s[1]], rest);
    ConcatCons([s[0]], [[s[1]]] + rest);
    assert [s[0]] + ([s[1]] + Concat(rest)) == [s[0], s[1]] + Concat(rest);
  }

  lemma UnitFirst(s: Text)
    requires s != [] && !(|s| >= 2 && Lead(s[0]) && Trail(s[1]))
    ensures Concat(Pieces(s)) == EscapeUnit(s[0]) + Concat(Pieces(s[1..]))
  {
    var rest := Pieces(s[1..]);
    SuffixPieces(s, 1);
    assert Piece(s, 0) == EscapeUnit(s[0]);
    assert Pieces(s) == [EscapeUnit(s[0])] + rest;
    ConcatCons(EscapeUnit(s[0]), rest);
  }

  lemma {:induction false} EscapeAllConcat(s: Text)
    ensures EscapeAll(s) == Concat(Pieces(s))
    decreases |s|
  {
    if s == [] {
    } else if |s| >= 2 && Lead(s[0]) && Trail(s[1]) {
      EscapeAllConcat(s[2..]);
      PairFirst(s);
    } else {
      EscapeAllConcat(s[1..]);
      UnitFirst(s);
    }
  }

  /** A string is written in exactly one way: two-unit escapes for seven units, hexadecimal ones where needed. */
  lemma QuoteIff(s: Text, t: Text)
    ensures StringText(s, t) <==> t == Quote(s)
  {
    EscapeAllConcat(s);
    SpelledIff(s, Pieces(s));
    forall pieces | SpelledBy(s, pieces) ensures pieces == Pieces(s) {
      SpelledIff(s, pieces);
    }
  }

  /******* Order *******/

  /** The first difference decides; without one, the shorter text comes first. */
  ghost predicate Before(a: Text, b: Text) {
    exists k :: 0 <= k < |b| && k <= |a| && a[..k] == b[..k] && (k == |a| || a[k] < b[k])
  }

  lemma {:induction false} LessIff(a: Text, b: Text)
    ensures Less(a, b) <==> Before(a, b)
  {
    if b != [] {
      if a == [] || a[0] < b[0] {
        assert a[..0] == b[..0];
      } else if a[0] == b[0] {
        LessIff(a[1..], b[1..]);
        if k :| 0 <= k < |b[1..]| && k <= |a[1..]| && a[1..][..k] == b[1..][..k]
                && (k == |a[1..]| || a[1..][k] < b[1..][k])
        {
          assert a[..k + 1] == [a[0]] + a[1..][..k] && b[..k + 1] == [b[0]] + b[1..][..k];
        }
        if k :| 0 <= k < |b| && k <= |a| && a[..k] == b[..k] && (k == |a| || a[k] < b[k]) {
          assert k > 0 && a[1..][..k - 1] == a[..k][1..] && b[1..][..k - 1] == b[..k][1..];
        }
      }
    }
  }

  /******* Values *******/

  /** Parts with a comma between neighbours. */
  ghost function Separated(parts: seq<Text>): Text {
    if |parts| < 2 then Concat(parts)
    else Separated(parts[..|parts| - 1]) + [',' as int] + parts[|parts| - 1]
  }

  /** The indices below n in some order. */
  ghost predicate Permutes(order: seq<nat>, n: nat) {
    && |order| == n && (forall i :: 0 <= i < n ==> order[i] < n)
    && forall j :: 0 <= j < n ==> j in order
  }

  /** Keys and values as members. */
  ghost function Members(keys: seq<Text>, values: seq<Text>): seq<Text>
    requires |keys| == |values|
  {
    seq(|keys|, i requires 0 <= i < |keys| => keys[i] + [':' as int] + values[i])
  }

  ghost predicate AscendingKeys(fields: seq<Entry<Value>>, order: seq<nat>)
    requires Permutes(order, |fields|)
  {
    forall i, j :: 0 <= i < j < |order| ==> Before(fields[order[i]].key, fields[order[j]].key)
  }

  /** The text of a value: members in ascending key order, no space anywhere, and no text for a number. */
  ghost predicate CanonicalText(v: Value, t: Text)
    decreases v, 2
  {
    match v
    case Null => t == Units("null")
    case Bool(b) => t == if b then Units("true") else Units("false")
    case Number(_) => false
    case Str(s) => StringText(s, t)
    case List(items) => ListText(items, t)
    case Record(fields) => RecordText(fields, t)
  }

  ghost predicate ListText(items: seq<Value>, t: Text)
    decreases items, 1
  {
    exists parts :: ItemTexts(items, parts) && t == ['[' as int] + Separated(parts) + [']' as int]
  }

  ghost predicate ItemTexts(items: seq<Value>, parts: seq<Text>)
    decreases items, 0
  {
    |parts| == |items| && forall i :: 0 <= i < |items| ==> CanonicalText(items[i], parts[i])
  }

  ghost predicate RecordText(fields: seq<Entry<Value>>, t: Text)
    decreases fields, 1
  {
    exists order, keys: seq<Text>, values: seq<Text> ::
      && Permutes(order, |fields|) && AscendingKeys(fields, order) && MemberTexts(fields, order, keys, values)
      && t == ['{' as int] + Separated(Members(keys, values)) + ['}' as int]
  }

  ghost predicate MemberTexts(fields: seq<Entry<Value>>, order: seq<nat>, keys: seq<Text>, values: seq<Text>)
    requires Permutes(order, |fields|)
    decreases fields, 0
  {
    && |keys| == |values| == |fields|
    && (forall i :: 0 <= i < |fields| ==> StringText(fields[order[i]].key, keys[i]))
    && forall i :: 0 <= i < |fields| ==> CanonicalText(fields[order[i]].value, values[i])
  }

  lemma {:induction false} SeparatedCons(part: Text, parts: seq<Text>)
    requires parts != []
    ensures Separated([part] + parts) == part + [',' as int] + Separated(parts)
  {
    var all, n := [part] + parts, |parts| - 1;
    if n == 0 {
      assert all[..1] == [part] && Concat([part]) == part && Concat(parts) == parts[0];
    } else {
      assert all[..|all| - 1] == [part] + parts[..n];
      SeparatedCons(part, parts[..n]);
    }
  }

  lemma {:induction false} JoinIsSeparated(parts: seq<Text>)
    ensures Join(parts) == Separated(parts)
  {
    if |parts| == 1 {
      assert Concat(parts[..0]) == [];
    } else if |parts| > 1 {
      JoinIsSeparated(parts[1..]);
      SeparatedCons(parts[0], parts[1..]);
      assert [parts[0]] + parts[1..] == parts;
    }
  }

  lemma Literals()
    ensures Units("null") == NULL_TEXT && Units("true") == TRUE_TEXT && Units("false") == FALSE_TEXT
  {
  }

  /******* The order of members *******/

  ghost function Ordered(es: seq<Entry<Text>>, order: seq<nat>): seq<Entry<Text>>
    requires Permutes(order, |es|)
  {
    seq(|es|, i requires 0 <= i < |es| => es[order[i]])
  }

  ghost predicate SortedBy(es: seq<Entry<Text>>, order: seq<nat>)
    requires Permutes(order, |es|)
  {
    forall i, j :: 0 <= i < j < |order| ==> Before(es[order[i]].key, es[order[j]].key)
  }

  lemma OrderedElements(es: seq<Entry<Text>>, order: seq<nat>)
    requires Permutes(order, |es|)
    ensures SameElements(Ordered(es, order), es)
  {
    var ordered := Ordered(es, order);
    forall e | e in es ensures e in ordered {
      var j :| 0 <= j < |es| && es[j] == e;
      assert j in order;
      var i :| 0 <= i < |order| && order[i] == j;
      assert ordered[i] == e;
    }
  }

  /** Entries listed in ascending key order are the sorted entries. */
  lemma OrderedIsSorted(es: seq<Entry<Text>>, order: seq<nat>)
    requires DistinctKeys(es) && Permutes(order, |es|) && SortedBy(es, order)
    ensures Ordered(es, order) == Sort(es)
  {
    var ordered := Ordered(es, order);
    forall i, j | 0 <= i < j < |ordered| ensures Less(ordered[i].key, ordered[j].key) {
      LessIff(ordered[i].key, ordered[j].key);
    }
    OrderedElements(es, order);
    SortSorts(es);
    AscendingUnique(ordered, Sort(es));
  }

  ghost function KeyIndex(es: seq<Entry<Text>>, e: Entry<Text>): (i: nat)
    requires e in es
    ensures i < |es| && es[i] == e
  {
    var i :| 0 <= i < |es| && es[i] == e;
    i
  }

  lemma SortOrders(es: seq<Entry<Text>>) returns (order: seq<nat>)
    requires DistinctKeys(es)
    ensures Permutes(order, |es|) && SortedBy(es, order) && Ordered(es, order) == Sort(es)
  {
    SortSorts(es);
    var sorted := Sort(es);
    order := seq(|es|, i requires 0 <= i < |es| => assert sorted[i] in es; KeyIndex(es, sorted[i]));
    forall j | 0 <= j < |es| ensures j in order {
      assert es[j] in sorted;
      var i :| 0 <= i < |sorted| && sorted[i] == es[j];
      assert order[i] == j;
    }
    forall i, j | 0 <= i < j < |order| ensures Before(es[order[i]].key, es[order[j]].key) {
      LessIff(sorted[i].key, sorted[j].key);
    }
    assert Ordered(es, order) == sorted;
  }

  lemma SameOrder(fields: seq<Entry<Value>>, order: seq<nat>)
    requires Permutes(order, |fields|)
    ensures AscendingKeys(fields, order) <==> SortedBy(CanonicalFields(fields), order)
  {
  }

  ghost function OrderedKeys(fields: seq<Entry<Value>>, order: seq<nat>): seq<Text>
    requires Permutes(order, |fields|)
  {
    seq(|fields|, i requires 0 <= i < |fields| => Quote(fields[order[i]].key))
  }

  ghost function OrderedValues(fields: seq<Entry<Value>>, order: seq<nat>): seq<Text>
    requires Permutes(order, |fields|)
  {
    seq(|fields|, i requires 0 <= i < |fields| => Canonical(fields[order[i]].value))
  }

  lemma MembersAreFieldTexts(fields: seq<Entry<Value>>, order: seq<nat>)
    requires Permutes(order, |fields|)
    ensures Members(OrderedKeys(fields, order), OrderedValues(fields, order)) ==
            FieldTexts(Ordered(CanonicalFields(fields), order))
  {
    var es := CanonicalFields(fields);
    forall i | 0 <= i < |fields|
      ensures FieldText(Ordered(es, order)[i]) ==
              Quote(fields[order[i]].key) + [':' as int] + Canonical(fields[order[i]].value)
    {
    }
  }

  /******* The codec writes this text *******/

  lemma {:induction false} CodecWritesIt(v: Value)
    requires WellFormed(v) && NumberFree(v)
    ensures CanonicalText(v, Canonical(v))
    decreases v, 2
  {
    match v
    case Str(s) =>
      QuoteIff(s, Canonical(v));
    case List(items) =>
      CodecWritesItems(items);
      JoinIsSeparated(CanonicalItems(items));
    case Record(fields) =>
      var order := SortOrders(CanonicalFields(fields));
      SameOrder(fields, order);
      CodecWritesMembers(fields, order);
      MembersAreFieldTexts(fields, order);
      JoinIsSeparated(FieldTexts(Sort(CanonicalFields(fields))));
    case _ =>
      Literals();
  }

  lemma {:induction false} CodecWritesItems(items: seq<Value>)
    requires forall i :: 0 <= i < |items| ==> WellFormed(items[i]) && NumberFree(items[i])
    ensures ItemTexts(items, CanonicalItems(items))
    decreases items, 1
  {
    forall i | 0 <= i < |items| ensures CanonicalText(items[i], CanonicalItems(items)[i]) {
      CodecWritesIt(items[i]);
    }
  }

  lemma {:induction false} CodecWritesMembers(fields: seq<Entry<Value>>, order: seq<nat>)
    requires Permutes(order, |fields|) && forall e :: e in fields ==> WellFormed(e.value) && NumberFree(e.value)
    ensures MemberTexts(fields, order, OrderedKeys(fields, order), OrderedValues(fields, order))
    decreases fields, 1
  {
    forall i | 0 <= i < |fields|
      ensures StringText(fields[order[i]].key, OrderedKeys(fields, order)[i])
      ensures CanonicalText(fields[order[i]].value, OrderedValues(fields, order)[i])
    {
      assert fields[order[i]] in fields;
      QuoteIff(fields[order[i]].key, Quote(fields[order[i]].key));
      CodecWritesIt(fields[order[i]].value);
    }
  }

  lemma {:induction false} NothingElse(v: Value, t: Text)
    requires WellFormed(v) && CanonicalText(v, t)
    ensures NumberFree(v) && t == Canonical(v)
    decreases v, 2
  {
    match v
    case Str(s) =>
      QuoteIff(s, t);
    case List(items) =>
      var parts :| ItemTexts(items, parts) && t == ['[' as int] + Separated(parts) + [']' as int];
      NoOtherItems(items, parts);
      JoinIsSeparated(parts);
    case Record(fields) =>
      NoOtherRecord(fields, t);
    case _ =>
      Literals();
  }

  lemma {:induction false} NoOtherItems(items: seq<Value>, parts: seq<Text>)
    requires (forall i :: 0 <= i < |items| ==> WellFormed(items[i])) && ItemTexts(items, parts)
    ensures (forall i :: 0 <= i < |items| ==> NumberFree(items[i])) && parts == CanonicalItems(items)
    decreases items, 1
  {
    forall i | 0 <= i < |items| ensures NumberFree(items[i]) && parts[i] == Canonical(items[i]) {
      NothingElse(items[i], parts[i]);
    }
  }

  lemma {:induction false} NoOtherRecord(fields: seq<Entry<Value>>, t: Text)
    requires DistinctKeys(fields) && (forall e :: e in fields ==> WellFormed(e.value)) && RecordText(fields, t)
    ensures forall e :: e in fields ==> NumberFree(e.value)
    ensures t == [123] + Join(FieldTexts(Sort(CanonicalFields(fields)))) + [125]
    decreases fields, 2
  {
    var order, keys: seq<Text>, values: seq<Text> :|
      && Permutes(order, |fields|) && AscendingKeys(fields, order) && MemberTexts(fields, order, keys, values)
      && t == ['{' as int] + Separated(Members(keys, values)) + ['}' as int];
    NoOtherMembers(fields, order, keys, values);
    MembersAreFieldTexts(fields, order);
    SameOrder(fields, order);
    OrderedIsSorted(CanonicalFields(fields), order);
    JoinIsSeparated(Members(keys, values));
  }

  lemma {:induction false} NoOtherMembers(fields: seq<Entry<Value>>, order: seq<nat>, keys: seq<Text>, values: seq<Text>)
    requires Permutes(order, |fields|) && (forall e :: e in fields ==> WellFormed(e.value))
    requires MemberTexts(fields, order, keys, values)
    ensures keys == OrderedKeys(fields, order) && values == OrderedValues(fields, order)
    ensures forall e :: e in fields ==> NumberFree(e.value)
    decreases fields, 1
  {
    forall i | 0 <= i < |fields|
      ensures NumberFree(fields[order[i]].value)
      ensures keys[i] == Quote(fields[order[i]].key) && values[i] == Canonical(fields[order[i]].value)
    {
      assert fields[order[i]] in fields;
      QuoteIff(fields[order[i]].key, keys[i]);
      NothingElse(fields[order[i]].value, values[i]);
    }
    forall e | e in fields ensures NumberFree(e.value) {
      var j :| 0 <= j < |fields| && fields[j] == e;
      assert j in order;
    }
  }

  /** The codec answers exactly the canonical text of a value, and refuses exactly the values with a number in them. */
  lemma EncodeIff(v: Value, t: Text)
    requires WellFormed(v)
    ensures Encode(v) == Some(t) <==> CanonicalText(v, t)
  {
    if NumberFree(v) {
      CodecWritesIt(v);
    }
    if CanonicalText(v, t) {
      NothingElse(v, t);
    }
  }

  /** Both values have a text, and these are the same or not. */
  ghost predicate Compares(v: Value, w: Value, t: Text, u: Text, same: bool) {
    CanonicalText(v, t) && CanonicalText(w, u) && (same <==> t == u)
  }

  /** Two values are compared by their canonical texts; the comparison is refused when either has none. */
  lemma EqualIff(v: Value, w: Value, same: bool)
    requires WellFormed(v) && WellFormed(w)
    ensures Equal(v, w) == Some(same) <==> exists t, u :: Compares(v, w, t, u, same)
  {
    if Equal(v, w) == Some(same) {
      EncodeIff(v, Canonical(v));
      EncodeIff(w, Canonical(w));
      assert Compares(v, w, Canonical(v), Canonical(w), same);
    }
    if t, u :| Compares(v, w, t, u, same) {
      EncodeIff(v, t);
      EncodeIff(w, u);
    }
  }
}
