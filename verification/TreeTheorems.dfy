/**
 The record stream of a directory tree is canonical and decodable: it determines, and is determined
 by, which files stand at which paths with which lengths and digests.
 */
module TreeTheorems {
  import opened Wrappers
  import opened Lexical
  import opened Decimal
  import opened TreeStream

  /******* The stream can be decoded *******/

  /** Texts that end at their first separator are told apart by what they are followed by. */
  lemma FirstSeparator(a: Text, x: Text, b: Text, y: Text, sep: Unit)
    requires sep !in a && sep !in b && a + [sep] + x == b + [sep] + y
    ensures a == b && x == y
  {
    var t := a + [sep] + x;
    assert t[|a|] == sep && t[|b|] == sep;
    assert forall i :: 0 <= i < |a| ==> t[i] == a[i];
    assert forall i :: 0 <= i < |b| ==> t[i] == b[i];
    assert |a| == |b|;
    assert a == t[..|a|] && b == t[..|b|];
    assert x == t[|a| + 1..] && y == t[|b| + 1..];
  }

  ghost predicate ValidPath(path: Path) {
    path != [] && forall name :: name in path ==> ValidName(name)
  }

  ghost predicate ValidRecord(r: FileRecord) {
    ValidPath(r.path) && NEWLINE !in r.digest
  }

  lemma {:induction false} JoinedHasNoNul(path: Path)
    requires ValidPath(path)
    ensures NUL !in Joined(path)
  {
    assert path[0] in path;
    if |path| > 1 {
      JoinedHasNoNul(path[1..]);
    }
  }

  lemma SlashSeparates(path: Path)
    requires path != [] && ValidName(path[0])
    ensures SLASH in Joined(path) <==> |path| > 1
  {
    if |path| > 1 {
      assert Joined(path)[|path[0]|] == SLASH;
    }
  }

  lemma {:induction false} JoinedDetermines(p: Path, q: Path)
    requires ValidPath(p) && ValidPath(q) && Joined(p) == Joined(q)
    ensures p == q
  {
    assert p[0] in p && q[0] in q;
    SlashSeparates(p);
    SlashSeparates(q);
    if |p| > 1 {
      FirstSeparator(p[0], Joined(p[1..]), q[0], Joined(q[1..]), SLASH);
      JoinedDetermines(p[1..], q[1..]);
      assert p == [p[0]] + p[1..] && q == [q[0]] + q[1..];
    }
  }

  lemma DecHasNoSeparator(n: nat)
    ensures NUL !in Dec(n)
  {
    DecIsNumeral(n);
  }

  /** The first record of a stream, and the rest, can be read off its text. */
  lemma EncodeDetermines(r: FileRecord, x: Text, q: FileRecord, y: Text)
    requires ValidRecord(r) && ValidRecord(q) && Encode(r) + x == Encode(q) + y
    ensures r == q && x == y
  {
    EncodeParts(r, x);
    EncodeParts(q, y);
    JoinedHasNoNul(r.path);
    JoinedHasNoNul(q.path);
    FirstSeparator(Joined(r.path), AfterPath(r, x), Joined(q.path), AfterPath(q, y), NUL);
    JoinedDetermines(r.path, q.path);
    DecHasNoSeparator(r.length);
    DecHasNoSeparator(q.length);
    FirstSeparator(Dec(r.length), AfterLength(r, x), Dec(q.length), AfterLength(q, y), NUL);
    DecIsNumeral(r.length);
    DecIsNumeral(q.length);
    FirstSeparator(r.digest, x, q.digest, y, NEWLINE);
  }

  function AfterLength(r: FileRecord, rest: Text): Text {
    r.digest + [NEWLINE] + rest
  }

  function AfterPath(r: FileRecord, rest: Text): Text {
    Dec(r.length) + [NUL] + AfterLength(r, rest)
  }

  lemma EncodeParts(r: FileRecord, rest: Text)
    ensures Encode(r) + rest == Joined(r.path) + [NUL] + AfterPath(r, rest)
  {
    var length: Text := Dec(r.length);
    Regroup(Joined(r.path) + [NUL], length + [NUL], r.digest + [NEWLINE], rest);
    assert Encode(r) == Joined(r.path) + [NUL] + (length + [NUL]) + (r.digest + [NEWLINE]);
  }

  lemma Regroup(a: Text, b: Text, c: Text, d: Text)
    ensures a + b + c + d == a + (b + (c + d))
  {
  }

  /** Different record lists have different streams. */
  lemma {:induction false} StreamDetermines(rs: seq<FileRecord>, qs: seq<FileRecord>)
    requires forall r :: r in rs || r in qs ==> ValidRecord(r)
    requires Stream(rs) == Stream(qs)
    ensures rs == qs
  {
    if rs != [] && qs != [] {
      EncodeDetermines(rs[0], Stream(rs[1..]), qs[0], Stream(qs[1..]));
      StreamDetermines(rs[1..], qs[1..]);
      assert rs == [rs[0]] + rs[1..] && qs == [qs[0]] + qs[1..];
    }
  }

  /******* The files of a tree, without the walk *******/

  /** The content of the file at a path, found by looking names up. */
  ghost function Lookup(node: Node, path: Path): Option<seq<Byte>>
    decreases node
  {
    match node
    case File(content) => if path == [] then Some(content) else None
    case Other => None
    case Dir(entries) =>
      if path != [] && exists e :: e in entries && e.key == path[0]
      then var e :| e in entries && e.key == path[0]; Lookup(e.value, path[1..])
      else None
  }

  ghost predicate IsRecordOf(r: FileRecord, node: Node, digest: Digest) {
    && Lookup(node, r.path).Some?
    && r.length == |Lookup(node, r.path).value| && r.digest == digest(Lookup(node, r.path).value)
  }

  lemma LookupEntry(entries: seq<Entry<Node>>, e: Entry<Node>, path: Path)
    requires DistinctKeys(entries) && e in entries
    ensures Lookup(Dir(entries), [e.key] + path) == Lookup(e.value, path)
  {
    var whole := [e.key] + path;
    assert whole[0] == e.key && whole[1..] == path;
    forall x | x in entries && x.key == e.key ensures x == e {
      var i :| 0 <= i < |entries| && entries[i] == x;
      var j :| 0 <= j < |entries| && entries[j] == e;
    }
  }

  lemma {:induction false} ConcatElements(parts: seq<Entry<seq<FileRecord>>>, r: FileRecord)
    ensures r in Concat(parts) <==>
            exists part :: part in parts && r.path != [] && r.path[0] == part.key && r.(path := r.path[1..]) in part.value
  {
    if parts != [] {
      ConcatElements(parts[1..], r);
      UnderElements(parts[0].key, parts[0].value, r);
      assert forall part :: part in parts <==> part == parts[0] || part in parts[1..];
    }
  }

  lemma UnderElements(name: Text, records: seq<FileRecord>, r: FileRecord)
    ensures r in Under(name, records) <==> r.path != [] && r.path[0] == name && r.(path := r.path[1..]) in records
  {
    if r in Under(name, records) {
      var i :| 0 <= i < |records| && Under(name, records)[i] == r;
      assert r.path[1..] == records[i].path;
      assert records[i] == r.(path := r.path[1..]);
    }
    if r.path != [] && r.path[0] == name && r.(path := r.path[1..]) in records {
      var i :| 0 <= i < |records| && records[i] == r.(path := r.path[1..]);
      assert [name] + r.path[1..] == r.path;
      assert Under(name, records)[i] == r;
    }
  }

  /** The walk records exactly the files that can be looked up; empty directories leave no trace. */
  lemma {:induction false} RecordsAreTheFiles(node: Node, digest: Digest, r: FileRecord)
    requires WellFormed(node)
    ensures r in Records(node, digest) <==> IsRecordOf(r, node, digest)
    decreases node
  {
    match node
    case File(_) =>
    case Other =>
    case Dir(entries) =>
      ConcatElements(Sort(Below(entries, digest)), r);
      SortElements(Below(entries, digest));
      if r.path != [] {
        var tail := r.(path := r.path[1..]);
        assert [r.path[0]] + r.path[1..] == r.path;
        forall e | e in entries && e.key == r.path[0]
          ensures tail in Records(e.value, digest) <==> IsRecordOf(r, node, digest)
        {
          RecordsAreTheFiles(e.value, digest, tail);
          LookupEntry(entries, e, r.path[1..]);
        }
        BelowElements(entries, digest, r.path[0], tail);
      }
  }

  lemma BelowElements(entries: seq<Entry<Node>>, digest: Digest, name: Text, tail: FileRecord)
    ensures (exists part :: part in Below(entries, digest) && part.key == name && tail in part.value) <==>
            exists e :: e in entries && e.key == name && tail in Records(e.value, digest)
  {
    var below := Below(entries, digest);
    forall i | 0 <= i < |entries| ensures below[i] in below && entries[i] in entries {
    }
    if part :| part in below && part.key == name && tail in part.value {
      var i :| 0 <= i < |below| && below[i] == part;
      assert entries[i] in entries;
    }
    if e :| e in entries && e.key == name && tail in Records(e.value, digest) {
      var i :| 0 <= i < |entries| && entries[i] == e;
      assert below[i] in below;
    }
  }

  /******* Walking order *******/

  /** Component by component, a proper prefix first. */
  predicate PathLess(p: Path, q: Path) {
    q != [] && (p == [] || Less(p[0], q[0]) || (p[0] == q[0] && PathLess(p[1..], q[1..])))
  }

  lemma {:induction false} PathLessIrreflexive(p: Path)
    ensures !PathLess(p, p)
  {
    if p != [] {
      LessIrreflexive(p[0]);
      PathLessIrreflexive(p[1..]);
    }
  }

  lemma {:induction false} PathLessTransitive(p: Path, q: Path, r: Path)
    requires PathLess(p, q) && PathLess(q, r)
    ensures PathLess(p, r)
  {
    if p != [] {
      if p[0] == q[0] == r[0] && !Less(p[0], q[0]) && !Less(q[0], r[0]) {
        PathLessTransitive(p[1..], q[1..], r[1..]);
      } else if Less(p[0], q[0]) && Less(q[0], r[0]) {
        LessTransitive(p[0], q[0], r[0]);
      }
    }
  }

  ghost predicate PathsAscend(rs: seq<FileRecord>) {
    forall i, j :: 0 <= i < j < |rs| ==> PathLess(rs[i].path, rs[j].path)
  }

  lemma {:induction false} ConcatAscends(parts: seq<Entry<seq<FileRecord>>>)
    requires Ascending(parts) && forall part :: part in parts ==> PathsAscend(part.value)
    ensures PathsAscend(Concat(parts))
  {
    if parts != [] {
      ConcatAscends(parts[1..]);
      var first, rest := Under(parts[0].key, parts[0].value), Concat(parts[1..]);
      UnderAscends(parts[0].key, parts[0].value);
      forall i, j | 0 <= i < |first| && 0 <= j < |rest| ensures PathLess(first[i].path, rest[j].path) {
        ConcatElements(parts[1..], rest[j]);
        var part :| part in parts[1..] && rest[j].path != [] && rest[j].path[0] == part.key;
        var k :| 0 <= k < |parts[1..]| && parts[1..][k] == part;
        assert parts[k + 1] == part;
        assert first[i].path[0] == parts[0].key;
      }
    }
  }

  lemma UnderAscends(name: Text, records: seq<FileRecord>)
    requires PathsAscend(records)
    ensures PathsAscend(Under(name, records))
  {
    var under := Under(name, records);
    forall i, j | 0 <= i < j < |records| ensures PathLess(under[i].path, under[j].path) {
      assert under[i].path[1..] == records[i].path && under[j].path[1..] == records[j].path;
    }
  }

  /** Whatever order directories list their entries in, the walk visits files in ascending order of path. */
  lemma {:induction false} RecordsAscend(node: Node, digest: Digest)
    requires WellFormed(node)
    ensures PathsAscend(Records(node, digest))
    decreases node
  {
    match node
    case File(_) =>
    case Other =>
    case Dir(entries) =>
      var below := Below(entries, digest);
      SortSorts(below);
      forall part | part in Sort(below) ensures PathsAscend(part.value) {
        var i :| 0 <= i < |below| && below[i] == part;
        assert entries[i] in entries;
        RecordsAscend(entries[i].value, digest);
      }
      ConcatAscends(Sort(below));
  }

  lemma {:induction false} AscendingPathsUnique(rs: seq<FileRecord>, qs: seq<FileRecord>)
    requires PathsAscend(rs) && PathsAscend(qs) && forall r :: r in rs <==> r in qs
    ensures rs == qs
  {
    assert |rs| > 0 ==> rs[0] in rs;
    assert |qs| > 0 ==> qs[0] in qs;
    if rs != [] {
      FirstRecordsAgree(rs, qs);
      RestOfRecords(rs);
      RestOfRecords(qs);
      AscendingPathsUnique(rs[1..], qs[1..]);
      assert rs == [rs[0]] + rs[1..] && qs == [qs[0]] + qs[1..];
    }
  }

  lemma FirstRecordsAgree(rs: seq<FileRecord>, qs: seq<FileRecord>)
    requires PathsAscend(rs) && PathsAscend(qs) && rs != [] && qs != [] && rs[0] in qs && qs[0] in rs
    ensures rs[0] == qs[0]
  {
    var i :| 0 <= i < |qs| && qs[i] == rs[0];
    var j :| 0 <= j < |rs| && rs[j] == qs[0];
    if i > 0 && j > 0 {
      PathLessTransitive(rs[0].path, qs[0].path, rs[0].path);
      PathLessIrreflexive(rs[0].path);
    }
  }

  lemma RestOfRecords(rs: seq<FileRecord>)
    requires PathsAscend(rs) && rs != []
    ensures forall r :: r in rs[1..] <==> r in rs && r != rs[0]
  {
    PathLessIrreflexive(rs[0].path);
    forall r | r in rs[1..] ensures r in rs && r != rs[0] {
      var k :| 0 <= k < |rs[1..]| && rs[1..][k] == r;
      assert rs[k + 1] == r && PathLess(rs[0].path, rs[k + 1].path);
    }
  }

  /******* What the stream determines *******/

  /** Two trees have the same files, as far as lengths and digests can tell. */
  ghost predicate SameFiles(a: Node, b: Node, digest: Digest) {
    forall path: Path ::
      (Lookup(a, path).Some? <==> Lookup(b, path).Some?)
      && (Lookup(a, path).Some? ==>
            && |Lookup(a, path).value| == |Lookup(b, path).value|
            && digest(Lookup(a, path).value) == digest(Lookup(b, path).value))
  }

  lemma {:induction false} LookupPathIsValid(node: Node, path: Path)
    requires WellFormed(node) && Lookup(node, path).Some?
    ensures forall name :: name in path ==> ValidName(name)
    decreases node
  {
    if node.Dir? {
      var e :| e in node.entries && e.key == path[0] && Lookup(node, path) == Lookup(e.value, path[1..]);
      LookupPathIsValid(e.value, path[1..]);
      assert forall name :: name in path <==> name == path[0] || name in path[1..];
    }
  }

  lemma RecordsAreValid(root: Node, digest: Digest)
    requires WellFormed(root) && root.Dir?
    ensures forall r :: r in Records(root, digest) ==> ValidRecord(r)
  {
    forall r | r in Records(root, digest) ensures ValidRecord(r) {
      RecordsAreTheFiles(root, digest, r);
      LookupPathIsValid(root, r.path);
    }
  }

  /** The stream is the same exactly when the same files stand at the same paths. */
  lemma StreamIffSameFiles(a: Node, b: Node, digest: Digest)
    requires WellFormed(a) && WellFormed(b) && a.Dir? && b.Dir?
    ensures Stream(Records(a, digest)) == Stream(Records(b, digest)) <==> SameFiles(a, b, digest)
  {
    if Stream(Records(a, digest)) == Stream(Records(b, digest)) {
      RecordsAreValid(a, digest);
      RecordsAreValid(b, digest);
      StreamDetermines(Records(a, digest), Records(b, digest));
      SameRecordsSameFiles(a, b, digest);
    }
    if SameFiles(a, b, digest) {
      forall r ensures r in Records(a, digest) <==> r in Records(b, digest) {
        RecordsAreTheFiles(a, digest, r);
        RecordsAreTheFiles(b, digest, r);
        assert Lookup(a, r.path).Some? <==> Lookup(b, r.path).Some?;
      }
      RecordsAscend(a, digest);
      RecordsAscend(b, digest);
      AscendingPathsUnique(Records(a, digest), Records(b, digest));
    }
  }

  lemma SameRecordsSameFiles(a: Node, b: Node, digest: Digest)
    requires WellFormed(a) && WellFormed(b) && Records(a, digest) == Records(b, digest)
    ensures SameFiles(a, b, digest)
  {
    forall path: Path
      ensures Lookup(a, path).Some? <==> Lookup(b, path).Some?
      ensures Lookup(a, path).Some? ==>
                && |Lookup(a, path).value| == |Lookup(b, path).value|
                && digest(Lookup(a, path).value) == digest(Lookup(b, path).value)
    {
      if Lookup(a, path).Some? {
        var r := FileRecord(path, |Lookup(a, path).value|, digest(Lookup(a, path).value));
        RecordsAreTheFiles(a, digest, r);
        RecordsAreTheFiles(b, digest, r);
      }
      if Lookup(b, path).Some? {
        var r := FileRecord(path, |Lookup(b, path).value|, digest(Lookup(b, path).value));
        RecordsAreTheFiles(a, digest, r);
        RecordsAreTheFiles(b, digest, r);
      }
    }
  }
}
