/** Splitting a sequence at every separator. */
module Splitting {

  /** The parts of s between separators: always at least one. */
  function Split<T(==)>(s: seq<T>, sep: T): (parts: seq<seq<T>>)
    ensures parts != []
  {
    if s == [] then [[]]
    else if s[0] == sep then [[]] + Split(s[1..], sep)
    else
      var rest := Split(s[1..], sep);
      [[s[0]] + rest[0]] + rest[1..]
  }

  lemma {:induction false} SplitAfterPart<T>(part: seq<T>, rest: seq<T>, sep: T)
    requires sep !in part
    ensures Split(part + [sep] + rest, sep) == [part] + Split(rest, sep)
  {
    var s := part + [sep] + rest;
    if part == [] {
      assert s[1..] == rest;
    } else {
      assert s[1..] == part[1..] + [sep] + rest;
      SplitAfterPart(part[1..], rest, sep);
      assert [part[0]] + part[1..] == part;
    }
  }

  lemma {:induction false} SplitLastPart<T>(part: seq<T>, sep: T)
    requires sep !in part
    ensures Split(part, sep) == [part]
  {
    if part != [] {
      SplitLastPart(part[1..], sep);
      assert [part[0]] + part[1..] == part;
    }
  }

  /** The parts, each followed by the separator. */
  function Ended<T>(parts: seq<seq<T>>, sep: T): seq<T> {
    if parts == [] then [] else parts[0] + [sep] + Ended(parts[1..], sep)
  }

  lemma EndedCons<T>(x: T, parts: seq<seq<T>>, sep: T)
    requires parts != []
    ensures Ended([[x] + parts[0]] + parts[1..], sep) == [x] + Ended(parts, sep)
  {
    assert ([[x] + parts[0]] + parts[1..])[1..] == parts[1..];
  }

  /** Ending the parts of a text gives the text, ended. */
  lemma {:induction false} EndedSplit<T>(s: seq<T>, sep: T)
    ensures Ended(Split(s, sep), sep) == s + [sep]
  {
    if s != [] {
      EndedSplit(s[1..], sep);
      assert s + [sep] == [s[0]] + (s[1..] + [sep]);
      if s[0] == sep {
        assert ([[]] + Split(s[1..], sep))[1..] == Split(s[1..], sep);
        assert [] + [sep] == [s[0]];
      } else {
        EndedCons(s[0], Split(s[1..], sep), sep);
      }
    }
  }

  lemma {:induction false} PartsAreWhole<T>(s: seq<T>, sep: T)
    ensures forall part :: part in Split(s, sep) ==> sep !in part
  {
    if s != [] {
      PartsAreWhole(s[1..], sep);
    }
  }

  lemma {:induction false} SplitEnded<T>(parts: seq<seq<T>>, sep: T)
    requires parts != [] && forall part :: part in parts ==> sep !in part
    ensures Ended(parts, sep) != [] && Ended(parts, sep)[|Ended(parts, sep)| - 1] == sep
    ensures Split(Ended(parts, sep)[..|Ended(parts, sep)| - 1], sep) == parts
  {
    var whole := Ended(parts, sep);
    if |parts| == 1 {
      assert whole == parts[0] + [sep] && whole[..|whole| - 1] == parts[0];
      SplitLastPart(parts[0], sep);
    } else {
      SplitEnded(parts[1..], sep);
      var rest := Ended(parts[1..], sep);
      assert whole[..|whole| - 1] == parts[0] + [sep] + rest[..|rest| - 1];
      SplitAfterPart(parts[0], rest[..|rest| - 1], sep);
      assert [parts[0]] + parts[1..] == parts;
    }
  }

  /** A text that ends in the separator splits into exactly these parts when it is these parts, each ended. */
  lemma SplitsIffEnded<T>(s: seq<T>, sep: T, parts: seq<seq<T>>)
    ensures s != [] && s[|s| - 1] == sep && Split(s[..|s| - 1], sep) == parts <==>
            parts != [] && (forall part :: part in parts ==> sep !in part) && s == Ended(parts, sep)
  {
    if s != [] && s[|s| - 1] == sep && Split(s[..|s| - 1], sep) == parts {
      EndedSplit(s[..|s| - 1], sep);
      PartsAreWhole(s[..|s| - 1], sep);
    }
    if parts != [] && (forall part :: part in parts ==> sep !in part) && s == Ended(parts, sep) {
      SplitEnded(parts, sep);
    }
  }
}
