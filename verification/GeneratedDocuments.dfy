/**
 Generating the projected documents (generateDocumentation and verifyGenerated in
 scripts/documentation/lib.ts): stage every text, rename each into place, and on a failing rename put
 back what was replaced.
 */
module GeneratedDocuments {
  import opened Wrappers

  type Bytes = seq<int>

  /** One generated document: where it goes and what it says. */
  datatype Document = Document(path: string, text: string)

  /** Reading and writing text files. */
  datatype Encoding = Encoding(encode: string -> Bytes, decode: Bytes -> string)

  /** Which file-system calls fail: staging document i (checks, reading, writing), and renaming it. */
  datatype Faults = Faults(stage: nat -> bool, rename: nat -> bool)

  predicate DistinctPaths(documents: seq<Document>) {
    forall i, j :: 0 <= i < j < |documents| ==> documents[i].path != documents[j].path
  }

  /** The first failing call among n. */
  function FirstFault(fails: nat -> bool, n: nat, i: nat := 0): (k: nat)
    requires i <= n
    ensures i <= k <= n && (k < n ==> fails(k)) && forall j :: i <= j < k ==> !fails(j)
    decreases n - i
  {
    if i == n || fails(i) then i else FirstFault(fails, n, i + 1)
  }

  /** The staging directory with the first k documents in it. */
  function Staged(documents: seq<Document>, k: nat, encoding: Encoding): map<nat, Bytes>
    requires k <= |documents|
  {
    if k == 0 then map[] else Staged(documents, k - 1, encoding)[k - 1 := encoding.encode(documents[k - 1].text)]
  }

  /** The text of each original at the first k paths, or that there is none. */
  function Originals(files: map<string, Bytes>, documents: seq<Document>, k: nat, encoding: Encoding)
    : map<string, Option<string>>
    requires k <= |documents|
  {
    if k == 0 then map[]
    else
      var path := documents[k - 1].path;
      Originals(files, documents, k - 1, encoding)
      [path := if path in files then Some(encoding.decode(files[path])) else None]
  }

  /** The repository with the first k documents in place. */
  function Replaced(files: map<string, Bytes>, documents: seq<Document>, k: nat, encoding: Encoding): map<string, Bytes>
    requires k <= |documents|
  {
    if k == 0 then files
    else Replaced(files, documents, k - 1, encoding)[documents[k - 1].path := encoding.encode(documents[k - 1].text)]
  }

  /** What rolling back leaves at the first k paths: the original's text written again, or no file. */
  function RolledBack(files: map<string, Bytes>, documents: seq<Document>, k: nat, encoding: Encoding): map<string, Bytes>
    requires k <= |documents|
  {
    map path | path in files ::
      if exists i :: 0 <= i < k && documents[i].path == path then encoding.encode(encoding.decode(files[path]))
      else files[path]
  }

  /** The repository after undoing the renames from index k on, the last one first. */
  function Undone(files: map<string, Bytes>, before: map<string, Bytes>, documents: seq<Document>, k: nat, replaced: nat,
                  encoding: Encoding): map<string, Bytes>
    requires k <= replaced <= |documents|
    decreases replaced - k
  {
    if k == replaced then files
    else
      var later, path := Undone(files, before, documents, k + 1, replaced, encoding), documents[k].path;
      if path in before then later[path := encoding.encode(encoding.decode(before[path]))] else later - {path}
  }

  /** No call fails. */
  predicate Succeeds(documents: seq<Document>, faults: Faults) {
    FirstFault(faults.stage, |documents|) == |documents| && FirstFault(faults.rename, |documents|) == |documents|
  }

  /** The repository after a generation. */
  function Outcome(files: map<string, Bytes>, documents: seq<Document>, faults: Faults, encoding: Encoding)
    : map<string, Bytes>
  {
    if FirstFault(faults.stage, |documents|) < |documents| then files
    else if FirstFault(faults.rename, |documents|) < |documents|
    then RolledBack(files, documents, FirstFault(faults.rename, |documents|), encoding)
    else Replaced(files, documents, |documents|, encoding)
  }

  /** The repository and the staging directory. */
  class Workspace {
    const encoding: Encoding
    var files: map<string, Bytes>
    var staging: map<nat, Bytes>

    constructor (encoding: Encoding, files: map<string, Bytes>)
      ensures this.encoding == encoding && this.files == files && staging == map[]
    {
      this.encoding := encoding;
      this.files, staging := files, map[];
    }

    /** Stages documents until one cannot be staged; remembers the original texts. */
    method Stage(documents: seq<Document>, faults: Faults)
      returns (staged: nat, originals: map<string, Option<string>>)
      requires staging == map[]
      modifies this`staging
      ensures staged == FirstFault(faults.stage, |documents|)
      ensures staging == Staged(documents, staged, encoding)
      ensures originals == Originals(files, documents, staged, encoding)
    {
      staged, originals := 0, map[];
      while staged < |documents| && !faults.stage(staged)
        invariant staged <= |documents| && forall j :: 0 <= j < staged ==> !faults.stage(j)
        invariant staging == Staged(documents, staged, encoding)
        invariant originals == Originals(files, documents, staged, encoding)
      {
        var d := documents[staged];
        originals := originals[d.path := if d.path in files then Some(encoding.decode(files[d.path])) else None];
        staging := staging[staged := encoding.encode(d.text)];
        staged := staged + 1;
      }
    }

    /** Renames staged documents into place until a rename fails. */
    method Replace(documents: seq<Document>, faults: Faults) returns (replaced: nat)
      requires forall i: nat :: i < |documents| ==> i in staging && staging[i] == encoding.encode(documents[i].text)
      modifies this
      ensures replaced == FirstFault(faults.rename, |documents|)
      ensures files == Replaced(old(files), documents, replaced, encoding)
    {
      replaced := 0;
      while replaced < |documents| && !faults.rename(replaced)
        invariant replaced <= |documents| && forall j :: 0 <= j < replaced ==> !faults.rename(j)
        invariant forall i: nat :: replaced <= i < |documents| ==>
                    i in staging && staging[i] == encoding.encode(documents[i].text)
        invariant files == Replaced(old(files), documents, replaced, encoding)
      {
        files := files[documents[replaced].path := staging[replaced]];
        staging := staging - {replaced};
        replaced := replaced + 1;
      }
    }

    /** Puts the replaced documents back, the last one first. */
    method RollBack(documents: seq<Document>, replaced: nat, originals: map<string, Option<string>>,
                    ghost before: map<string, Bytes>)
      requires replaced <= |documents| && DistinctPaths(documents)
      requires files == Replaced(before, documents, replaced, encoding)
      requires originals == Originals(before, documents, |documents|, encoding)
      modifies this`files
      ensures files == RolledBack(before, documents, replaced, encoding)
    {
      OriginalsContents(before, documents, |documents|, encoding);
      var k := replaced;
      while k > 0
        invariant 0 <= k <= replaced
        invariant files == Undone(old(files), before, documents, k, replaced, encoding)
      {
        k := k - 1;
        var path := documents[k].path;
        var original := originals[path];
        if original.None? {
          if path in files {
            files := files - {path};
          }
        } else {
          files := files[path := encoding.encode(original.value)];
        }
      }
      UndoneIsRolledBack(before, documents, replaced, encoding);
    }

    /** The whole generation; false stands for the rethrown error. */
    method Generate(documents: seq<Document>, faults: Faults) returns (ok: bool)
      requires DistinctPaths(documents) && staging == map[]
      modifies this
      ensures staging == map[]
      ensures ok == Succeeds(documents, faults)
      ensures files == Outcome(old(files), documents, faults, encoding)
    {
      var staged, originals := Stage(documents, faults);
      if staged < |documents| {
        staging := map[];
        return false;
      }
      ghost var before := files;
      StagedContents(documents, |documents|, encoding);
      var replaced := Replace(documents, faults);
      if replaced < |documents| {
        RollBack(documents, replaced, originals, before);
        staging := map[];
        return false;
      }
      staging := map[];
      return true;
    }

    /** The check that every document is as generated. */
    method VerifyGenerated(documents: seq<Document>) returns (ok: bool)
      ensures ok <==> forall d :: d in documents ==> d.path in files && encoding.decode(files[d.path]) == d.text
    {
      for i := 0 to |documents|
        invariant forall k :: 0 <= k < i ==>
                    documents[k].path in files && encoding.decode(files[documents[k].path]) == documents[k].text
      {
        var d := documents[i];
        if d.path !in files || encoding.decode(files[d.path]) != d.text {
          assert d in documents;
          return false;
        }
      }
      return true;
    }
  }

  lemma {:induction false} StagedContents(documents: seq<Document>, k: nat, encoding: Encoding)
    requires k <= |documents|
    ensures forall i: nat :: i < k ==>
              i in Staged(documents, k, encoding) && Staged(documents, k, encoding)[i] == encoding.encode(documents[i].text)
  {
    if k > 0 {
      StagedContents(documents, k - 1, encoding);
    }
  }

  lemma {:induction false} OriginalsContents(files: map<string, Bytes>, documents: seq<Document>, k: nat, encoding: Encoding)
    requires k <= |documents|
    ensures forall i :: 0 <= i < k ==>
              var path := documents[i].path;
              && path in Originals(files, documents, k, encoding)
              && Originals(files, documents, k, encoding)[path] ==
                 if path in files then Some(encoding.decode(files[path])) else None
  {
    if k > 0 {
      OriginalsContents(files, documents, k - 1, encoding);
    }
  }

  /** The path is none of the first k. */
  ghost predicate Elsewhere(path: string, documents: seq<Document>, k: nat)
    requires k <= |documents|
  {
    forall i :: 0 <= i < k ==> documents[i].path != path
  }

  /** The replaced paths hold the new texts; all others are untouched. */
  lemma {:induction false} ReplacedContents(files: map<string, Bytes>, documents: seq<Document>, k: nat, encoding: Encoding)
    requires k <= |documents| && DistinctPaths(documents)
    ensures var after := Replaced(files, documents, k, encoding);
            && (forall i :: 0 <= i < k ==>
                  documents[i].path in after && after[documents[i].path] == encoding.encode(documents[i].text))
            && (forall path :: Elsewhere(path, documents, k) ==>
                  (path in after <==> path in files) && (path in after ==> after[path] == files[path]))
  {
    if k > 0 {
      ReplacedContents(files, documents, k - 1, encoding);
      assert forall path :: Elsewhere(path, documents, k) ==>
               Elsewhere(path, documents, k - 1) && path != documents[k - 1].path;
    }
  }

  /** Undoing from k on restores the texts at those paths and keeps every other path. */
  lemma {:induction false} UndoneContents(files: map<string, Bytes>, before: map<string, Bytes>, documents: seq<Document>,
                                          k: nat, replaced: nat, encoding: Encoding, path: string)
    requires k <= replaced <= |documents|
    ensures var after := Undone(files, before, documents, k, replaced, encoding);
            if exists i :: k <= i < replaced && documents[i].path == path then
              && (path in after <==> path in before)
              && (path in after ==> after[path] == encoding.encode(encoding.decode(before[path])))
            else (path in after <==> path in files) && (path in after ==> after[path] == files[path])
    decreases replaced - k
  {
    if k < replaced {
      UndoneContents(files, before, documents, k + 1, replaced, encoding, path);
      if i :| k <= i < replaced && documents[i].path == path {
        assert i > k ==> k + 1 <= i < replaced && documents[i].path == path;
      }
    }
  }

  lemma UndoneIsRolledBack(before: map<string, Bytes>, documents: seq<Document>, replaced: nat, encoding: Encoding)
    requires replaced <= |documents| && DistinctPaths(documents)
    ensures Undone(Replaced(before, documents, replaced, encoding), before, documents, 0, replaced, encoding) ==
            RolledBack(before, documents, replaced, encoding)
  {
    var files := Replaced(before, documents, replaced, encoding);
    var after, goal := Undone(files, before, documents, 0, replaced, encoding), RolledBack(before, documents, replaced, encoding);
    ReplacedContents(before, documents, replaced, encoding);
    forall path
      ensures path in after <==> path in goal
      ensures path in after ==> after[path] == goal[path]
    {
      UndoneContents(files, before, documents, 0, replaced, encoding, path);
      assert (exists i :: 0 <= i < replaced && documents[i].path == path) <==> !Elsewhere(path, documents, replaced);
    }
  }

  /** The file at this path comes back unchanged when its text is read and written again. */
  ghost predicate RoundTrips(bytes: Bytes, encoding: Encoding) {
    encoding.encode(encoding.decode(bytes)) == bytes
  }

  /** Rolling back restores the repository exactly when the replaced originals are proper text. */
  lemma RollbackIsCompleteIff(files: map<string, Bytes>, documents: seq<Document>, k: nat, encoding: Encoding)
    requires k <= |documents|
    ensures RolledBack(files, documents, k, encoding) == files <==>
            forall i :: 0 <= i < k && documents[i].path in files ==> RoundTrips(files[documents[i].path], encoding)
  {
  }

  /**
   All or nothing, for any documents and any failing calls: a generation without failures puts every text in
   place and leaves other paths alone; any other leaves the repository as it was if and only if no rename came
   before the failure, or the originals replaced by then survive being read and written as text.
   */
  lemma AllOrNothingIff(files: map<string, Bytes>, documents: seq<Document>, faults: Faults, encoding: Encoding)
    requires DistinctPaths(documents)
    ensures var n, after := |documents|, Outcome(files, documents, faults, encoding);
            if Succeeds(documents, faults) then
              && (forall i :: 0 <= i < n ==>
                    documents[i].path in after && after[documents[i].path] == encoding.encode(documents[i].text))
              && (forall path :: Elsewhere(path, documents, n) ==>
                    (path in after <==> path in files) && (path in after ==> after[path] == files[path]))
            else
              after == files <==>
              || FirstFault(faults.stage, n) < n
              || forall i :: 0 <= i < FirstFault(faults.rename, n) && documents[i].path in files ==>
                   RoundTrips(files[documents[i].path], encoding)
  {
    var n := |documents|;
    ReplacedContents(files, documents, n, encoding);
    RollbackIsCompleteIff(files, documents, FirstFault(faults.rename, n), encoding);
  }

  /******* The outcome, path by path *******/

  ghost predicate NeverFails(fails: nat -> bool, n: nat) {
    forall i: nat :: i < n ==> !fails(i)
  }

  /** Call k is the first of n to fail. */
  ghost predicate FailsFirst(fails: nat -> bool, n: nat, k: nat) {
    k < n && fails(k) && NeverFails(fails, k)
  }

  lemma FirstFaultIff(fails: nat -> bool, n: nat, k: nat)
    ensures FirstFault(fails, n) == n <==> NeverFails(fails, n)
    ensures k < n ==> (FirstFault(fails, n) == k <==> FailsFirst(fails, n, k))
  {
  }

  /** Every document stands at its path, and nothing else has changed. */
  ghost predicate Installed(files: map<string, Bytes>, documents: seq<Document>, encoding: Encoding, after: map<string, Bytes>)
  {
    && (forall i :: 0 <= i < |documents| ==>
          documents[i].path in after && after[documents[i].path] == encoding.encode(documents[i].text))
    && forall path :: Elsewhere(path, documents, |documents|) ==>
         (path in after <==> path in files) && (path in after ==> after[path] == files[path])
  }

  /** The same files as before; those at the first k paths have been read and written as text. */
  ghost predicate Restored(files: map<string, Bytes>, documents: seq<Document>, k: nat, encoding: Encoding,
                           after: map<string, Bytes>)
    requires k <= |documents|
  {
    && after.Keys == files.Keys
    && forall path :: path in files ==>
         after[path] == if Elsewhere(path, documents, k) then files[path] else encoding.encode(encoding.decode(files[path]))
  }

  lemma ReplacedIff(files: map<string, Bytes>, documents: seq<Document>, encoding: Encoding, after: map<string, Bytes>)
    requires DistinctPaths(documents)
    ensures after == Replaced(files, documents, |documents|, encoding) <==> Installed(files, documents, encoding, after)
  {
    var n, goal := |documents|, Replaced(files, documents, |documents|, encoding);
    ReplacedContents(files, documents, n, encoding);
    if Installed(files, documents, encoding, after) {
      forall path
        ensures path in after <==> path in goal
        ensures path in after ==> after[path] == goal[path]
      {
        if !Elsewhere(path, documents, n) {
          var i :| 0 <= i < n && documents[i].path == path;
        }
      }
    }
  }

  lemma RolledBackIff(files: map<string, Bytes>, documents: seq<Document>, k: nat, encoding: Encoding,
                      after: map<string, Bytes>)
    requires k <= |documents|
    ensures after == RolledBack(files, documents, k, encoding) <==> Restored(files, documents, k, encoding, after)
  {
    assert forall path :: Elsewhere(path, documents, k) <==> !exists i :: 0 <= i < k && documents[i].path == path;
  }

  /**
   What a generation leaves: every text in place if no call fails; the repository as it was if a call fails while
   staging; and otherwise the files as they were, with the originals replaced before the first failing rename
   written again as text.
   */
  lemma OutcomeIff(files: map<string, Bytes>, documents: seq<Document>, faults: Faults, encoding: Encoding,
                   after: map<string, Bytes>)
    requires DistinctPaths(documents)
    ensures Succeeds(documents, faults) <==>
            NeverFails(faults.stage, |documents|) && NeverFails(faults.rename, |documents|)
    ensures var n := |documents|;
            after == Outcome(files, documents, faults, encoding) <==>
            || (Succeeds(documents, faults) && Installed(files, documents, encoding, after))
            || (!NeverFails(faults.stage, n) && after == files)
            || (NeverFails(faults.stage, n)
                && exists k: nat :: FailsFirst(faults.rename, n, k) && Restored(files, documents, k, encoding, after))
  {
    var n := |documents|;
    var k := FirstFault(faults.rename, n);
    FirstFaultIff(faults.stage, n, 0);
    FirstFaultIff(faults.rename, n, k);
    ReplacedIff(files, documents, encoding, after);
    RolledBackIff(files, documents, k, encoding, after);
    forall j: nat | FailsFirst(faults.rename, n, j) ensures j == k {
      FirstFaultIff(faults.rename, n, j);
    }
  }

  /******* An original that is not text *******/

  const REPLACEMENT: char := '\U{FFFD}'

  /** Reading as the platform does: every byte outside the ASCII range here stands for a malformed sequence. */
  function DecodeLossy(bytes: Bytes): string {
    seq(|bytes|, i requires 0 <= i < |bytes| => if 0 <= bytes[i] < 128 then bytes[i] as char else REPLACEMENT)
  }

  /** U+FFFD is written as its three bytes. */
  function EncodeLossy(text: string): Bytes {
    if text == [] then []
    else (if text[0] == REPLACEMENT then [0xEF, 0xBF, 0xBD] else [text[0] as int]) + EncodeLossy(text[1..])
  }

  /** A replaced original with the byte 0xFF comes back as other bytes. */
  lemma MalformedOriginalIsLost(files: map<string, Bytes>, documents: seq<Document>, k: nat)
    requires 0 < k <= |documents| && documents[0].path in files && files[documents[0].path] == [0xFF]
    ensures var after := RolledBack(files, documents, k, Encoding(EncodeLossy, DecodeLossy));
            && documents[0].path in after && after[documents[0].path] == [0xEF, 0xBF, 0xBD]
            && after != files
  {
    assert DecodeLossy([0xFF]) == [REPLACEMENT];
    assert EncodeLossy([REPLACEMENT]) == [0xEF, 0xBF, 0xBD];
  }

  /** Rolling back removes what was absent and never touches other paths. */
  lemma RollbackKeepsOthers(files: map<string, Bytes>, documents: seq<Document>, k: nat, encoding: Encoding)
    requires k <= |documents|
    ensures RolledBack(files, documents, k, encoding).Keys == files.Keys
    ensures forall path :: path in files && Elsewhere(path, documents, k) ==>
              RolledBack(files, documents, k, encoding)[path] == files[path]
  {
  }

  /** After a successful generation the check passes exactly when every text survives writing and reading. */
  lemma VerifiesAfterSuccessIff(files: map<string, Bytes>, documents: seq<Document>, encoding: Encoding)
    requires DistinctPaths(documents)
    ensures var after := Replaced(files, documents, |documents|, encoding);
            (forall d :: d in documents ==> d.path in after && encoding.decode(after[d.path]) == d.text) <==>
            forall d :: d in documents ==> encoding.decode(encoding.encode(d.text)) == d.text
  {
    ReplacedContents(files, documents, |documents|, encoding);
    var after := Replaced(files, documents, |documents|, encoding);
    forall d | d in documents ensures d.path in after && after[d.path] == encoding.encode(d.text) {
      var i :| 0 <= i < |documents| && documents[i] == d;
    }
  }
}
