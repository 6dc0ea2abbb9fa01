/**
 Splicing the generated block into the safety module
 (scripts/cleanup-broker/generate-administration-contract.py): between its markers when they are
 there, otherwise in place of the hand-written constants.
 */
module ContractSplice {
  import opened Wrappers

  const START := "# BEGIN GENERATED ADMINISTRATION CONTRACT" + "\n"
  const END := "# END GENERATED ADMINISTRATION CONTRACT" + "\n"
  const FIRST_CONSTANT := "BINDINGS = "
  const FIRST_KEPT := "ACTIVE = "

  /******* Finding and splitting *******/

  predicate At(s: string, pattern: string, i: nat) {
    i + |pattern| <= |s| && s[i..i + |pattern|] == pattern
  }

  predicate Contains(s: string, pattern: string) {
    exists i :: 0 <= i <= |s| && At(s, pattern, i)
  }

  /** The first occurrence at or after i, if there is one. */
  function Find(s: string, pattern: string, i: nat := 0): (r: Option<nat>)
    requires i <= |s|
    ensures r.Some? ==> i <= r.value && At(s, pattern, r.value) && forall j :: i <= j < r.value ==> !At(s, pattern, j)
    ensures r.None? ==> forall j :: i <= j <= |s| ==> !At(s, pattern, j)
    decreases |s| - i
  {
    if At(s, pattern, i) then Some(i) else if i == |s| then None else Find(s, pattern, i + 1)
  }

  datatype Halves = Halves(before: string, after: string)

  /** Splitting once at a separator; None stands for the error of unpacking too few parts. */
  function SplitOnce(s: string, separator: string): Option<Halves> {
    match Find(s, separator)
    case None => None
    case Some(i) => Some(Halves(s[..i], s[i + |separator|..]))
  }

  /** The text written back, for the generated lines between the markers. */
  function Splice(body: string, current: string): Option<string> {
    match SplitOnce(current, START)
    case Some(Halves(before, tail)) =>
      (match SplitOnce(tail, END)
       case Some(Halves(_, after)) => Some(before + START + body + END + after)
       case None => None)
    case None =>
      (match SplitOnce(current, FIRST_CONSTANT)
       case Some(Halves(before, tail)) =>
         (match SplitOnce(tail, FIRST_KEPT)
          case Some(Halves(_, after)) => Some(before + START + body + END + (FIRST_KEPT + after))
          case None => None)
       case None => None)
  }

  /** What --check reports of a file: that generating again would change it. */
  predicate Drift(body: string, current: string) {
    Splice(body, current) != Some(current)
  }

  /******* Markers do not overlap themselves *******/

  /** The last character occurs nowhere else in the pattern. */
  predicate Terminated(pattern: string) {
    pattern != [] && forall i :: 0 <= i < |pattern| - 1 ==> pattern[i] != pattern[|pattern| - 1]
  }

  lemma MarkersTerminated()
    ensures Terminated(START) && Terminated(END)
  {
    var start, end := "# BEGIN GENERATED ADMINISTRATION CONTRACT", "# END GENERATED ADMINISTRATION CONTRACT";
    assert '\n' !in start;
    assert '\n' !in end;
    assert START == start + "\n" && END == end + "\n";
  }

  lemma FindUnique(s: string, pattern: string, i: nat)
    requires i <= |s| && At(s, pattern, i) && forall j :: 0 <= j < i ==> !At(s, pattern, j)
    ensures Find(s, pattern) == Some(i)
  {
  }

  /** A terminated pattern put behind a text without it is found there and no earlier. */
  lemma FoundBehind(before: string, pattern: string, after: string)
    requires Terminated(pattern) && !Contains(before, pattern)
    ensures SplitOnce(before + pattern + after, pattern) == Some(Halves(before, after))
  {
    var s, n := before + pattern + after, |pattern|;
    assert At(s, pattern, |before|);
    forall j | 0 <= j < |before| ensures !At(s, pattern, j) {
      if j + n <= |before| {
        assert !At(before, pattern, j);
        assert before[j..j + n] == s[j..j + n];
      } else {
        assert s[j + n - 1] == pattern[j + n - 1 - |before|];
        assert s[j..j + n][n - 1] == s[j + n - 1];
      }
    }
    FindUnique(s, pattern, |before|);
    assert s[..|before|] == before && s[|before| + n..] == after;
  }

  /** Behind a text that has the pattern, the split happens inside that text. */
  lemma FoundInside(before: string, pattern: string, after: string)
    requires Contains(before, pattern) && pattern != []
    ensures SplitOnce(before + pattern + after, pattern).Some?
    ensures |SplitOnce(before + pattern + after, pattern).value.after| >= |after| + |pattern|
  {
    var s := before + pattern + after;
    var m :| 0 <= m <= |before| && At(before, pattern, m);
    assert s[m..m + |pattern|] == before[m..m + |pattern|];
    assert At(s, pattern, m);
  }

  lemma SplitOnceParts(s: string, separator: string)
    requires SplitOnce(s, separator).Some?
    ensures var Halves(before, after) := SplitOnce(s, separator).value;
            s == before + separator + after && (separator != [] ==> !Contains(before, separator))
  {
    var i := Find(s, separator).value;
    assert s == s[..i] + s[i..i + |separator|] + s[i + |separator|..];
    forall j | 0 <= j <= i && At(s[..i], separator, j) ensures separator == [] {
      assert s[..i][j..j + |separator|] == s[j..j + |separator|];
      assert At(s, separator, j);
    }
  }

  /******* What splicing keeps *******/

  /** The parts of a text split at one pattern and then, behind it, at another. */
  lemma TwoSplits(s: string, first: string, second: string)
    requires first != [] && SplitOnce(s, first).Some? && SplitOnce(SplitOnce(s, first).value.after, second).Some?
    ensures var Halves(before, tail) := SplitOnce(s, first).value;
            var Halves(middle, after) := SplitOnce(tail, second).value;
            && s == before + (first + middle + second) + after && s == before + (first + middle) + (second + after)
            && before <= s && !Contains(before, first)
  {
    var Halves(before, tail) := SplitOnce(s, first).value;
    SplitOnceParts(s, first);
    SplitOnceParts(tail, second);
    var Halves(middle, after) := SplitOnce(tail, second).value;
    Regroup(before, first, middle, second, after);
  }

  lemma Regroup(a: string, b: string, c: string, d: string, e: string)
    ensures a + b + (c + d + e) == a + (b + c + d) + e
    ensures a + b + (c + d + e) == a + (b + c) + (d + e)
  {
  }

  lemma PrefixHasNone(s: string, prefix: string, pattern: string)
    requires prefix <= s && Find(s, pattern).None?
    ensures !Contains(prefix, pattern)
  {
    forall j | 0 <= j <= |prefix| ensures !At(prefix, pattern, j) {
      assert !At(s, pattern, j);
      if j + |pattern| <= |prefix| {
        assert prefix[j..j + |pattern|] == s[j..j + |pattern|];
      }
    }
  }

  /** The first occurrence of one pattern, and the first occurrence of another behind it. */
  ghost predicate Block(s: string, first: string, second: string, i: nat, k: nat) {
    && At(s, first, i) && (forall j :: 0 <= j < i ==> !At(s, first, j))
    && i + |first| <= k && At(s, second, k) && (forall j :: i + |first| <= j < k ==> !At(s, second, j))
  }

  lemma AtInTail(s: string, pattern: string, from: nat, j: nat)
    requires from <= |s| && j <= |s| - from
    ensures At(s[from..], pattern, j) <==> At(s, pattern, from + j)
  {
    if from + j + |pattern| <= |s| {
      assert s[from..][j..j + |pattern|] == s[from + j..from + j + |pattern|];
    }
  }

  lemma FindIff(s: string, pattern: string, i: nat)
    ensures Find(s, pattern) == Some(i) <==> At(s, pattern, i) && forall j :: 0 <= j < i ==> !At(s, pattern, j)
  {
    if At(s, pattern, i) && forall j :: 0 <= j < i ==> !At(s, pattern, j) {
      FindUnique(s, pattern, i);
    }
  }

  /** Searching twice finds the block, if there is one. */
  lemma BlockIff(s: string, first: string, second: string, i: nat, k: nat)
    ensures Block(s, first, second, i, k) <==>
            && Find(s, first) == Some(i) && i + |first| <= k
            && Find(s[i + |first|..], second) == Some(k - i - |first|)
  {
    FindIff(s, first, i);
    if At(s, first, i) && i + |first| <= k {
      var from := i + |first|;
      FindIff(s[from..], second, k - from);
      if k <= |s| {
        forall j: nat | j <= k - from ensures At(s[from..], second, j) <==> At(s, second, from + j) {
          AtInTail(s, second, from, j);
        }
        forall j | from <= j < k ensures At(s, second, j) <==> At(s[from..], second, j - from) {
          assert from + (j - from) == j;
        }
      }
    }
  }

  /** The text before the block and the text behind it, as splitting twice gives them. */
  ghost predicate Splits(s: string, first: string, second: string, before: string, after: string) {
    && SplitOnce(s, first).Some? && SplitOnce(s, first).value.before == before
    && SplitOnce(SplitOnce(s, first).value.after, second).Some?
    && SplitOnce(SplitOnce(s, first).value.after, second).value.after == after
  }

  ghost predicate Around(s: string, first: string, second: string, before: string, after: string) {
    exists i: nat, k: nat :: Block(s, first, second, i, k) && before == s[..i] && after == s[k + |second|..]
  }

  lemma SplitsWhereFound(s: string, first: string, second: string, i: nat, m: nat)
    requires Find(s, first) == Some(i)
    requires Find(s[i + |first|..], second) == Some(m)
    ensures i + |first| + m + |second| <= |s|
    ensures Splits(s, first, second, s[..i], s[i + |first| + m + |second|..])
  {
    SplitOnceAt(s, first, i);
    SplitOnceAt(s[i + |first|..], second, m);
    assert |s[i + |first|..]| == |s| - i - |first|;
    TailOfTail(s, i + |first|, m + |second|);
  }

  lemma TailOfTail(s: string, from: nat, more: nat)
    requires from + more <= |s|
    ensures s[from..][more..] == s[from + more..]
  {
  }

  lemma SplitOnceAt(s: string, pattern: string, i: nat)
    requires Find(s, pattern) == Some(i)
    ensures i + |pattern| <= |s| && SplitOnce(s, pattern) == Some(Halves(s[..i], s[i + |pattern|..]))
  {
  }

  lemma SplitsIff(s: string, first: string, second: string, before: string, after: string)
    ensures Splits(s, first, second, before, after) <==> Around(s, first, second, before, after)
  {
    if Splits(s, first, second, before, after) {
      var i := Find(s, first).value;
      var k := i + |first| + Find(s[i + |first|..], second).value;
      BlockIff(s, first, second, i, k);
      SplitsWhereFound(s, first, second, i, k - i - |first|);
    }
    if i: nat, k: nat :| Block(s, first, second, i, k) && before == s[..i] && after == s[k + |second|..] {
      BlockIff(s, first, second, i, k);
      SplitsWhereFound(s, first, second, i, k - i - |first|);
    }
  }

  /**
   The file as it is written back: everything outside the block between the markers, or, in a file without a start
   marker, outside the stretch from the first constant up to the first kept one.
   */
  ghost predicate Rewrites(body: string, current: string, result: string) {
    if Contains(current, START) then
      exists before, after ::
        Around(current, START, END, before, after) && result == before + START + body + END + after
    else
      exists before, after ::
        Around(current, FIRST_CONSTANT, FIRST_KEPT, before, after)
        && result == before + START + body + END + (FIRST_KEPT + after)
  }

  lemma SpliceSplits(body: string, current: string, result: string)
    ensures Splice(body, current) == Some(result) <==>
            if SplitOnce(current, START).Some? then
              exists before, after ::
                Splits(current, START, END, before, after) && result == before + START + body + END + after
            else
              exists before, after ::
                Splits(current, FIRST_CONSTANT, FIRST_KEPT, before, after)
                && result == before + START + body + END + (FIRST_KEPT + after)
  {
    if Splice(body, current) == Some(result) {
      var first, second := if SplitOnce(current, START).Some? then START else FIRST_CONSTANT,
                           if SplitOnce(current, START).Some? then END else FIRST_KEPT;
      var Halves(before, tail) := SplitOnce(current, first).value;
      assert Splits(current, first, second, before, SplitOnce(tail, second).value.after);
    }
  }

  /** Splicing writes back exactly this, and fails exactly when the block is not there. */
  lemma SpliceIff(body: string, current: string, result: string)
    ensures Splice(body, current) == Some(result) <==> Rewrites(body, current, result)
  {
    SpliceSplits(body, current, result);
    forall before, after
      ensures Splits(current, START, END, before, after) <==> Around(current, START, END, before, after)
    {
      SplitsIff(current, START, END, before, after);
    }
    forall before, after
      ensures Splits(current, FIRST_CONSTANT, FIRST_KEPT, before, after) <==>
              Around(current, FIRST_CONSTANT, FIRST_KEPT, before, after)
    {
      SplitsIff(current, FIRST_CONSTANT, FIRST_KEPT, before, after);
    }
  }

  /** Splicing replaces one stretch of the file: what stands before and behind it is kept, whatever the body. */
  lemma SpliceShape(body: string, current: string) returns (before: string, removed: string, after: string)
    requires Splice(body, current).Some?
    ensures current == before + removed + after && !Contains(before, START)
    ensures forall other :: Splice(other, current) == Some(before + START + other + END + after)
  {
    if SplitOnce(current, START).Some? {
      var Halves(left, tail) := SplitOnce(current, START).value;
      TwoSplits(current, START, END);
      before, removed, after := left, START + SplitOnce(tail, END).value.before + END, SplitOnce(tail, END).value.after;
    } else {
      var Halves(left, tail) := SplitOnce(current, FIRST_CONSTANT).value;
      TwoSplits(current, FIRST_CONSTANT, FIRST_KEPT);
      PrefixHasNone(current, left, START);
      before, removed := left, FIRST_CONSTANT + SplitOnce(tail, FIRST_KEPT).value.before;
      after := FIRST_KEPT + SplitOnce(tail, FIRST_KEPT).value.after;
    }
  }

  /** Splicing into a spliced text finds the old block, unless the old body has an end marker of its own. */
  lemma SpliceAgain(before: string, body: string, after: string, other: string)
    requires !Contains(before, START)
    ensures var current := before + START + body + END + after;
            if Contains(body, END)
            then Splice(other, current).Some? && |Splice(other, current).value| > |before + START + other + END + after|
            else Splice(other, current) == Some(before + START + other + END + after)
  {
    MarkersTerminated();
    var tail := body + END + after;
    assert before + START + body + END + after == before + START + tail;
    FoundBehind(before, START, tail);
    if Contains(body, END) {
      FoundInside(body, END, after);
    } else {
      FoundBehind(body, END, after);
    }
  }

  /** Generating twice is generating once exactly when the body has no end marker in it. */
  lemma IdempotentIff(body: string, current: string)
    requires Splice(body, current).Some?
    ensures Splice(body, Splice(body, current).value) == Splice(body, current) <==> !Contains(body, END)
  {
    var before, _, after := SpliceShape(body, current);
    SpliceAgain(before, body, after, body);
  }

  /** A check right after a write reports no drift exactly when the body has no end marker in it. */
  lemma NoDriftAfterWriteIff(body: string, current: string)
    requires Splice(body, current).Some?
    ensures Drift(body, Splice(body, current).value) <==> Contains(body, END)
  {
    IdempotentIff(body, current);
  }

  /** Later contracts overwrite earlier ones without a trace, from the marker branch and the legacy branch alike. */
  lemma LastSpliceWins(body: string, other: string, current: string)
    requires Splice(body, current).Some? && !Contains(body, END)
    ensures Splice(other, Splice(body, current).value) == Splice(other, current)
  {
    var before, _, after := SpliceShape(body, current);
    SpliceAgain(before, body, after, other);
  }
}
