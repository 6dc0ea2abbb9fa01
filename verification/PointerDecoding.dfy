/**
 Repository references with JSON Pointers (scripts/documentation/lib.ts): which references the
 check admits, and what resolving one does.  Sections 3 and 4 of RFC 6901.
 */
module PointerDecoding {
  import opened Wrappers
  import opened JsonValues
  import opened Splitting

  /******* Decoding a token *******/

  /** Replaces every "~" + digit by one character, left to right. */
  function Replaced(s: string, digit: char, plain: char): string {
    if |s| >= 2 && s[0] == '~' && s[1] == digit then [plain] + Replaced(s[2..], digit, plain)
    else if s == [] then []
    else [s[0]] + Replaced(s[1..], digit, plain)
  }

  /** The source's two passes: all "~1" first, then all "~0". */
  function TwoPass(s: string): string {
    Replaced(Replaced(s, '1', '/'), '0', '~')
  }

  /** Section 4 read as one pass over the token. */
  function OnePass(s: string): string {
    if |s| >= 2 && s[0] == '~' && s[1] == '1' then "/" + OnePass(s[2..])
    else if |s| >= 2 && s[0] == '~' && s[1] == '0' then "~" + OnePass(s[2..])
    else if s == [] then []
    else [s[0]] + OnePass(s[1..])
  }

  /** The two passes never read each other's output: they agree with one pass on every string. */
  lemma {:induction false} TwoPassIsOnePass(s: string)
    ensures TwoPass(s) == OnePass(s)
  {
    if s != [] {
      if |s| >= 2 && s[0] == '~' && s[1] == '1' {
        TwoPassIsOnePass(s[2..]);
      } else if |s| >= 2 && s[0] == '~' && s[1] == '0' {
        var rest := Replaced(s[2..], '1', '/');
        assert s[1..][1..] == s[2..];
        assert Replaced(s, '1', '/') == "~" + ("0" + rest) == "~0" + rest;
        TwoPassIsOnePass(s[2..]);
      } else {
        var rest := Replaced(s[1..], '1', '/');
        assert Replaced(s, '1', '/') == [s[0]] + rest;
        assert rest != [] && rest[0] == '0' ==> s[1] == '0';
        TwoPassIsOnePass(s[1..]);
      }
    }
  }

  /** The passes in the other order. */
  function Swapped(s: string): string {
    Replaced(Replaced(s, '0', '~'), '1', '/')
  }

  predicate HasEscapedOne(s: string) {
    exists i :: 0 <= i && i + 2 < |s| && s[i] == '~' && s[i + 1] == '0' && s[i + 2] == '1'
  }

  lemma EscapedOneStep(s: string)
    requires s != []
    ensures HasEscapedOne(s) <==>
            (|s| >= 3 && s[0] == '~' && s[1] == '0' && s[2] == '1') || HasEscapedOne(s[1..])
  {
    if HasEscapedOne(s[1..]) {
      var i :| 0 <= i && i + 2 < |s[1..]| && s[1..][i] == '~' && s[1..][i + 1] == '0' && s[1..][i + 2] == '1';
      assert s[i + 1] == '~' && s[i + 1 + 1] == '0' && s[i + 1 + 2] == '1';
    }
    if HasEscapedOne(s) {
      var i :| 0 <= i && i + 2 < |s| && s[i] == '~' && s[i + 1] == '0' && s[i + 2] == '1';
      if i > 0 {
        assert s[1..][i - 1] == '~' && s[1..][i - 1 + 1] == '0' && s[1..][i - 1 + 2] == '1';
      }
    }
  }

  lemma FirstStays(s: string)
    requires s != [] && s[0] != '~'
    ensures Replaced(s, '0', '~') == [s[0]] + Replaced(s[1..], '0', '~')
  {
  }

  /** The order of the passes matters exactly for texts with an escaped tilde in front of a 1. */
  lemma {:induction false} PassOrderMatters(s: string)
    ensures Swapped(s) == TwoPass(s) <==> !HasEscapedOne(s)
  {
    TwoPassIsOnePass(s);
    if s != [] {
      EscapedOneStep(s);
      if |s| >= 2 && s[0] == '~' && s[1] == '1' {
        EscapedOneStep(s[1..]);
        assert s[1..][1..] == s[2..];
        SwappedSlash(s);
        PassOrderMatters(s[2..]);
        TwoPassIsOnePass(s[2..]);
        SameTails(TwoPass(s)[0], Swapped(s[2..]), TwoPass(s[2..]));
      } else if |s| >= 2 && s[0] == '~' && s[1] == '0' {
        EscapedOneStep(s[1..]);
        assert s[1..][1..] == s[2..];
        SwappedTilde(s);
        PassOrderMatters(s[2..]);
        TwoPassIsOnePass(s[2..]);
        SameTails(TwoPass(s)[0], Swapped(s[2..]), TwoPass(s[2..]));
      } else {
        SwappedPlain(s);
        PassOrderMatters(s[1..]);
        TwoPassIsOnePass(s[1..]);
        SameTails(s[0], Swapped(s[1..]), TwoPass(s[1..]));
      }
    }
  }

  lemma SameTails(c: char, a: string, b: string)
    ensures [c] + a == [c] + b <==> a == b
  {
    assert ([c] + a)[1..] == a && ([c] + b)[1..] == b;
  }

  lemma SwappedSlash(s: string)
    requires |s| >= 2 && s[0] == '~' && s[1] == '1'
    ensures Swapped(s) == ['/'] + Swapped(s[2..])
  {
    var rest := Replaced(s[2..], '0', '~');
    assert s[1..][1..] == s[2..];
    FirstStays(s[1..]);
    assert Replaced(s, '0', '~') == ['~'] + (['1'] + rest) == ['~', '1'] + rest;
  }

  lemma SwappedTilde(s: string)
    requires |s| >= 2 && s[0] == '~' && s[1] == '0'
    ensures if |s| >= 3 && s[2] == '1' then Swapped(s) != [] && Swapped(s)[0] == '/'
            else Swapped(s) == ['~'] + Swapped(s[2..])
  {
    var rest := Replaced(s[2..], '0', '~');
    assert Replaced(s, '0', '~') == ['~'] + rest;
    if |s| >= 3 && s[2] == '1' {
      FirstStays(s[2..]);
      assert (['~'] + rest)[1] == '1';
    } else {
      assert rest != [] ==> rest[0] != '1';
      assert (['~'] + rest)[1..] == rest;
    }
  }

  lemma SwappedPlain(s: string)
    requires s != [] && !(|s| >= 2 && s[0] == '~' && (s[1] == '0' || s[1] == '1'))
    ensures Swapped(s) == [s[0]] + Swapped(s[1..])
  {
    var rest := Replaced(s[1..], '0', '~');
    assert Replaced(s, '0', '~') == [s[0]] + rest;
    assert rest != [] && rest[0] == '1' ==> s[1] == '1';
    assert ([s[0]] + rest)[1..] == rest;
  }

  function Escape(key: string): string {
    if key == [] then []
    else if key[0] == '~' then "~0" + Escape(key[1..])
    else if key[0] == '/' then "~1" + Escape(key[1..])
    else [key[0]] + Escape(key[1..])
  }

  lemma {:induction false} DecodeUndoesEscape(key: string)
    ensures TwoPass(Escape(key)) == key
    ensures '/' !in Escape(key)
  {
    TwoPassIsOnePass(Escape(key));
    if key != [] {
      DecodeUndoesEscape(key[1..]);
      TwoPassIsOnePass(Escape(key[1..]));
      assert Escape(key)[if key[0] == '~' || key[0] == '/' then 2 else 1..] == Escape(key[1..]);
    }
  }

  /******* Which pointers are admitted *******/

  predicate HasDotDot(s: string) {
    exists i :: 0 <= i < |s| - 1 && s[i] == '.' && s[i + 1] == '.'
  }

  predicate TildesPaired(s: string) {
    forall i :: 0 <= i < |s| && s[i] == '~' ==> i + 1 < |s| && (s[i + 1] == '0' || s[i + 1] == '1')
  }

  predicate Admitted(pointer: string) {
    pointer != [] && pointer[0] == '/' && !HasDotDot(pointer) && TildesPaired(pointer)
  }

  /** The pointer to a path of keys. */
  function Encode(path: seq<string>): string {
    if path == [] then [] else "/" + Escape(path[0]) + Encode(path[1..])
  }

  /** s has dot-dot, or ends where a dot in front of t would make one. */
  lemma HasDotDotConcat(s: string, t: string)
    ensures HasDotDot(s + t) <==>
            HasDotDot(s) || HasDotDot(t) || (s != [] && t != [] && s[|s| - 1] == '.' && t[0] == '.')
  {
    var st := s + t;
    if HasDotDot(st) {
      var i :| 0 <= i < |st| - 1 && st[i] == '.' && st[i + 1] == '.';
      if i + 1 < |s| {
        assert s[i] == '.' && s[i + 1] == '.';
      } else if i >= |s| {
        assert t[i - |s|] == '.' && t[i - |s| + 1] == '.';
      }
    }
    if HasDotDot(s) {
      var i :| 0 <= i < |s| - 1 && s[i] == '.' && s[i + 1] == '.';
      assert st[i] == '.' && st[i + 1] == '.';
    }
    if HasDotDot(t) {
      var i :| 0 <= i < |t| - 1 && t[i] == '.' && t[i + 1] == '.';
      assert st[|s| + i] == '.' && st[|s| + i + 1] == '.';
    }
    if s != [] && t != [] && s[|s| - 1] == '.' && t[0] == '.' {
      assert st[|s| - 1] == '.' && st[|s| - 1 + 1] == '.';
    }
  }

  lemma TildesPairedConcat(s: string, t: string)
    requires TildesPaired(s) && TildesPaired(t)
    ensures TildesPaired(s + t)
  {
  }

  lemma {:induction false} EscapeKeepsDots(key: string)
    ensures HasDotDot(Escape(key)) <==> HasDotDot(key)
    ensures TildesPaired(Escape(key))
    ensures (key == [] <==> Escape(key) == []) && (key != [] && key[0] == '.' <==> Escape(key) != [] && Escape(key)[0] == '.')
  {
    if key != [] {
      EscapeKeepsDots(key[1..]);
      var head := if key[0] == '~' then "~0" else if key[0] == '/' then "~1" else [key[0]];
      assert Escape(key) == head + Escape(key[1..]);
      assert key == [key[0]] + key[1..];
      HasDotDotConcat(head, Escape(key[1..]));
      HasDotDotConcat([key[0]], key[1..]);
      TildesPairedConcat(head, Escape(key[1..]));
    }
  }

  lemma {:induction false} EncodeKeepsDots(path: seq<string>)
    ensures HasDotDot(Encode(path)) <==> exists key :: key in path && HasDotDot(key)
    ensures TildesPaired(Encode(path))
    ensures path != [] ==> Encode(path) != [] && Encode(path)[0] == '/'
  {
    if path != [] {
      EncodeKeepsDots(path[1..]);
      EscapeKeepsDots(path[0]);
      var head := "/" + Escape(path[0]);
      assert Encode(path) == head + Encode(path[1..]);
      HasDotDotConcat("/", Escape(path[0]));
      HasDotDotConcat(head, Encode(path[1..]));
      TildesPairedConcat(head, Encode(path[1..]));
      assert forall key :: key in path <==> key == path[0] || key in path[1..];
    }
  }

  /** The pointer to a non-empty path is admitted exactly when no key contains "..". */
  lemma AdmittedIff(path: seq<string>)
    ensures Admitted(Encode(path)) <==> path != [] && forall key :: key in path ==> !HasDotDot(key)
  {
    EncodeKeepsDots(path);
  }

  /******* Resolving *******/

  /** An own property, as the source asks for it; arrays also own their length. */
  function Own(v: Json, key: string): Option<Json> {
    match v
    case Obj(fields) => if key in fields then Some(fields[key]) else None
    case Arr(items) => if key == "length" then Some(Num(|items|)) else Element(items, key)
    case _ => None
  }

  /** The value at a path of keys. */
  function Walk(v: Json, path: seq<string>): Option<Json>
    decreases path
  {
    if path == [] then Some(v)
    else match Own(v, path[0])
      case Some(next) => Walk(next, path[1..])
      case None => None
  }

  /** next is what value has under this key: a field, an element under the decimal text of its index, or a length. */
  ghost predicate Reaches(value: Json, key: string, next: Json) {
    match value
    case Obj(fields) => key in fields && next == fields[key]
    case Arr(items) =>
      || (key == "length" && next == Num(|items|))
      || exists i :: 0 <= i < |items| && key == Numeral(i) && next == items[i]
    case _ => false
  }

  /** The values met on the way from one value to another, one more than there are keys. */
  ghost predicate Chain(path: seq<string>, values: seq<Json>, from: Json, to: Json) {
    && |values| == |path| + 1 && values[0] == from && values[|path|] == to
    && forall i :: 0 <= i < |path| ==> Reaches(values[i], path[i], values[i + 1])
  }

  ghost predicate LeadsTo(value: Json, path: seq<string>, target: Json) {
    exists values :: Chain(path, values, value, target)
  }

  lemma NumeralIsNotLength(i: nat)
    ensures Numeral(i) != "length"
  {
    NumeralParses(i);
    assert !Digit("length"[5]);
    assert ParseDigits("length").None?;
  }

  lemma ElementIff(items: seq<Json>, key: string, next: Json)
    ensures Element(items, key) == Some(next) <==> exists i :: 0 <= i < |items| && key == Numeral(i) && next == items[i]
  {
    if Element(items, key) == Some(next) {
      IndexIff(key, ParseIndex(key).value);
    }
    if i :| 0 <= i < |items| && key == Numeral(i) && next == items[i] {
      IndexIff(key, i);
    }
  }

  lemma OwnIff(value: Json, key: string, next: Json)
    ensures Own(value, key) == Some(next) <==> Reaches(value, key, next)
  {
    match value
    case Arr(items) =>
      ElementIff(items, key, next);
      if key == "length" {
        assert forall i: nat :: Numeral(i) != key by {
          forall i: nat ensures Numeral(i) != key {
            NumeralIsNotLength(i);
          }
        }
      }
    case _ =>
  }

  /** Walking reaches a value exactly when a chain of own properties leads to it. */
  lemma {:induction false} WalkIff(value: Json, path: seq<string>, target: Json)
    ensures Walk(value, path) == Some(target) <==> LeadsTo(value, path, target)
    decreases path
  {
    if path == [] {
      if value == target {
        assert Chain(path, [value], value, target);
      }
    } else {
      if Walk(value, path) == Some(target) {
        var next := Own(value, path[0]).value;
        OwnIff(value, path[0], next);
        WalkIff(next, path[1..], target);
        var values :| Chain(path[1..], values, next, target);
        ChainCons(value, path, values, target);
      }
      if values :| Chain(path, values, value, target) {
        OwnIff(value, path[0], values[1]);
        ChainTail(path, values, value, target);
        WalkIff(values[1], path[1..], target);
      }
    }
  }

  lemma ChainCons(value: Json, path: seq<string>, values: seq<Json>, target: Json)
    requires path != [] && values != [] && Reaches(value, path[0], values[0])
    requires Chain(path[1..], values, values[0], target)
    ensures Chain(path, [value] + values, value, target)
  {
    var longer := [value] + values;
    forall i | 0 <= i < |path| ensures Reaches(longer[i], path[i], longer[i + 1]) {
      if i > 0 {
        assert Reaches(values[i - 1], path[1..][i - 1], values[i - 1 + 1]);
      }
    }
  }

  lemma ChainTail(path: seq<string>, values: seq<Json>, value: Json, target: Json)
    requires path != [] && Chain(path, values, value, target)
    ensures Chain(path[1..], values[1..], values[1], target)
  {
    forall i | 0 <= i < |path| - 1 ensures Reaches(values[1..][i], path[1..][i], values[1..][i + 1]) {
      assert Reaches(values[i + 1], path[i + 1], values[i + 1 + 1]);
    }
  }

  function Decoded(parts: seq<string>): seq<string> {
    seq(|parts|, i requires 0 <= i < |parts| => TwoPass(parts[i]))
  }

  /** The source's loop over the encoded parts of an admitted pointer. */
  method ResolveJsonPointer(value: Json, pointer: string) returns (r: Option<Json>)
    requires pointer != []
    ensures r == Walk(value, Decoded(Split(pointer[1..], '/')))
    ensures forall w :: r == Some(w) <==> LeadsTo(value, Decoded(Split(pointer[1..], '/')), w)
  {
    forall w ensures Walk(value, Decoded(Split(pointer[1..], '/'))) == Some(w) <==>
                     LeadsTo(value, Decoded(Split(pointer[1..], '/')), w)
    {
      WalkIff(value, Decoded(Split(pointer[1..], '/')), w);
    }
    var current := value;
    var parts := Split(pointer[1..], '/');
    ghost var keys := Decoded(parts);
    for i := 0 to |parts|
      invariant Walk(value, keys) == Walk(current, keys[i..])
    {
      var key := TwoPass(parts[i]);
      assert keys[i..][0] == key && keys[i..][1..] == keys[i + 1..];
      var next := Own(current, key);
      if next.None? {
        return None;
      }
      current := next.value;
    }
    return Some(current);
  }

  function Escaped(path: seq<string>): seq<string> {
    seq(|path|, i requires 0 <= i < |path| => Escape(path[i]))
  }

  lemma BehindSlash(head: string, rest: string)
    requires rest != [] && rest[0] == '/'
    ensures (['/'] + head + rest)[1..] == head + ['/'] + rest[1..]
  {
    assert rest == ['/'] + rest[1..];
  }

  lemma EncodeStep(path: seq<string>)
    requires |path| > 1
    ensures Encode(path)[1..] == Escape(path[0]) + ['/'] + Encode(path[1..])[1..]
  {
    BehindSlash(Escape(path[0]), Encode(path[1..]));
  }

  lemma {:induction false} EncodeSplits(path: seq<string>)
    requires path != []
    ensures Split(Encode(path)[1..], '/') == Escaped(path)
  {
    DecodeUndoesEscape(path[0]);
    if |path| == 1 {
      assert Encode(path)[1..] == Escape(path[0]);
      SplitLastPart(Escape(path[0]), '/');
    } else {
      EncodeSplits(path[1..]);
      EncodeStep(path);
      SplitAfterPart(Escape(path[0]), Encode(path[1..])[1..], '/');
      assert [Escape(path[0])] + Escaped(path[1..]) == Escaped(path);
    }
  }

  lemma EncodeDecodes(path: seq<string>)
    requires path != []
    ensures Decoded(Split(Encode(path)[1..], '/')) == path
  {
    EncodeSplits(path);
    forall i | 0 <= i < |path| ensures TwoPass(Escape(path[i])) == path[i] {
      DecodeUndoesEscape(path[i]);
    }
  }

  lemma {:induction false} EscapeUndoesDecode(token: string)
    requires '/' !in token && TildesPaired(token)
    ensures Escape(TwoPass(token)) == token
  {
    TwoPassIsOnePass(token);
    if token != [] {
      var n := if token[0] == '~' then 2 else 1;
      assert TildesPaired(token[n..]) by {
        assert forall i :: 0 <= i < |token[n..]| ==> token[n..][i] == token[n + i];
      }
      EscapeUndoesDecode(token[n..]);
      TwoPassIsOnePass(token[n..]);
      assert token == token[..n] + token[n..];
      assert OnePass(token)[1..] == OnePass(token[n..]);
    }
  }

  lemma {:induction false} PartsArePaired(s: string)
    requires TildesPaired(s)
    ensures forall part :: part in Split(s, '/') ==> TildesPaired(part)
  {
    if s != [] {
      var rest := Split(s[1..], '/');
      assert TildesPaired(s[1..]) by {
        assert forall i :: 0 <= i < |s[1..]| ==> s[1..][i] == s[1 + i];
      }
      PartsArePaired(s[1..]);
      if s[0] == '~' {
        assert rest[0] != [] && rest[0][0] == s[1];
      }
      assert rest[0] in rest;
      TildesPairedCons(s[0], rest[0]);
    }
  }

  lemma TildesPairedCons(c: char, s: string)
    requires TildesPaired(s) && (c == '~' ==> s != [] && (s[0] == '0' || s[0] == '1'))
    ensures TildesPaired([c] + s)
  {
  }

  lemma {:induction false} EncodeEnded(path: seq<string>)
    ensures Encode(path) + "/" == "/" + Ended(Escaped(path), '/')
  {
    if path != [] {
      EncodeEnded(path[1..]);
      assert Escaped(path)[1..] == Escaped(path[1..]);
      assert Encode(path) + "/" == "/" + Escape(path[0]) + (Encode(path[1..]) + "/");
    }
  }

  lemma DecodedEncodes(pointer: string)
    requires pointer != [] && pointer[0] == '/' && TildesPaired(pointer)
    ensures Encode(Decoded(Split(pointer[1..], '/'))) == pointer
  {
    var parts := Split(pointer[1..], '/');
    assert pointer == ['/'] + pointer[1..];
    assert TildesPaired(pointer[1..]) by {
      assert forall i :: 0 <= i < |pointer[1..]| ==> pointer[1..][i] == pointer[1 + i];
    }
    PartsArePaired(pointer[1..]);
    PartsAreWhole(pointer[1..], '/');
    forall i | 0 <= i < |parts| ensures Escape(TwoPass(parts[i])) == parts[i] {
      EscapeUndoesDecode(parts[i]);
    }
    assert Escaped(Decoded(parts)) == parts;
    EncodeEnded(Decoded(parts));
    EndedSplit(pointer[1..], '/');
    var encoded := Encode(Decoded(parts));
    assert encoded + "/" == pointer + "/";
    assert encoded == (encoded + "/")[..|encoded|];
  }

  /** The admitted pointers are the encodings of the non-empty paths in which no key contains "..". */
  lemma AdmittedIsEncoded(pointer: string)
    ensures Admitted(pointer) <==>
            exists path :: path != [] && (forall key :: key in path ==> !HasDotDot(key)) && pointer == Encode(path)
  {
    if Admitted(pointer) {
      DecodedEncodes(pointer);
      AdmittedIff(Decoded(Split(pointer[1..], '/')));
    }
    if path :| path != [] && (forall key :: key in path ==> !HasDotDot(key)) && pointer == Encode(path) {
      AdmittedIff(path);
    }
  }

  /** Resolving the pointer to a path reaches exactly the value that own properties lead to along that path. */
  lemma ResolveReachesPath(value: Json, path: seq<string>, target: Json)
    requires path != []
    ensures Walk(value, Decoded(Split(Encode(path)[1..], '/'))) == Some(target) <==> LeadsTo(value, path, target)
  {
    EncodeDecodes(path);
    WalkIff(value, path, target);
  }
}
