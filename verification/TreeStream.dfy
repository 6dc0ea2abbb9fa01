/**
 The record stream a directory tree is hashed over (hashDirectoryTree in
 scripts/qualification/common.ts): the walk that builds it, and what it determines.
 */
module TreeStream {
  import opened Wrappers
  import opened Lexical
  import opened Decimal

  const MAX_TREE_FILES := 512
  const MAX_TREE_BYTES := 4 * 1024 * 1024

  const SLASH: Unit := 47
  const NUL: Unit := 0
  const NEWLINE: Unit := 10

  /** A directory entry: files by content, directories in whatever order they are listed, anything else. */
  datatype Node = File(content: seq<Byte>) | Dir(entries: seq<Entry<Node>>) | Other

  predicate ValidName(name: Text) {
    name != [] && SLASH !in name && NUL !in name
  }

  /** Names are names, and no directory has one twice. */
  predicate WellFormed(node: Node) {
    match node
    case Dir(entries) =>
      DistinctKeys(entries) && forall e :: e in entries ==> ValidName(e.key) && WellFormed(e.value)
    case _ => true
  }

  /** The digest text of some bytes: any function whose texts have no newline. */
  type Digest = f: seq<Byte> -> Text | forall b :: NEWLINE !in f(b) ghost witness _ => []

  /******* Records *******/

  type Path = seq<Text>

  /** What the stream says of one file. */
  datatype FileRecord = FileRecord(path: Path, length: nat, digest: Text)

  function Joined(path: Path): Text {
    if path == [] then [] else if |path| == 1 then path[0] else path[0] + [SLASH] + Joined(path[1..])
  }

  function Encode(r: FileRecord): Text {
    Joined(r.path) + [NUL] + Dec(r.length) + [NUL] + r.digest + [NEWLINE]
  }

  function Stream(records: seq<FileRecord>): Text {
    if records == [] then [] else Encode(records[0]) + Stream(records[1..])
  }

  /******* The walk *******/

  function TotalBytes(records: seq<FileRecord>): nat {
    if records == [] then 0 else TotalBytes(records[..|records| - 1]) + records[|records| - 1].length
  }

  predicate WithinBounds(records: seq<FileRecord>) {
    |records| <= MAX_TREE_FILES && TotalBytes(records) <= MAX_TREE_BYTES
  }

  predicate OnlyFilesAndDirectories(node: Node) {
    match node
    case File(_) => true
    case Dir(entries) => forall e :: e in entries ==> OnlyFilesAndDirectories(e.value)
    case Other => false
  }

  /** The record of the same file seen from the parent directory. */
  function Under(name: Text, records: seq<FileRecord>): seq<FileRecord> {
    seq(|records|, i requires 0 <= i < |records| => records[i].(path := [name] + records[i].path))
  }

  /** The files below a node in walking order, by path from the node: entries by name, directories in place. */
  function Records(node: Node, digest: Digest): seq<FileRecord>
    decreases node, 1
  {
    match node
    case File(content) => [FileRecord([], |content|, digest(content))]
    case Dir(entries) => Concat(Sort(Below(entries, digest)))
    case Other => []
  }

  function Below(entries: seq<Entry<Node>>, digest: Digest): seq<Entry<seq<FileRecord>>>
    decreases entries, 0
  {
    seq(|entries|, i requires 0 <= i < |entries| => Entry(entries[i].key, Records(entries[i].value, digest)))
  }

  function Concat(parts: seq<Entry<seq<FileRecord>>>): seq<FileRecord> {
    if parts == [] then [] else Under(parts[0].key, parts[0].value) + Concat(parts[1..])
  }

  /** The records below a node that stands at this path of the tree. */
  function AtPrefix(prefix: Path, records: seq<FileRecord>): seq<FileRecord> {
    seq(|records|, i requires 0 <= i < |records| => records[i].(path := prefix + records[i].path))
  }

  lemma {:induction false} ConcatStep(parts: seq<Entry<seq<FileRecord>>>, i: nat)
    requires i < |parts|
    ensures Concat(parts[..i + 1]) == Concat(parts[..i]) + Under(parts[i].key, parts[i].value)
  {
    if i == 0 {
      assert parts[..1][1..] == [] && parts[..0] == [];
      assert Under(parts[0].key, parts[0].value) + [] == [] + Under(parts[0].key, parts[0].value);
    } else {
      ConcatStep(parts[1..], i - 1);
      assert parts[..i + 1][1..] == parts[1..][..i] && parts[..i][1..] == parts[1..][..i - 1];
    }
  }

  lemma {:induction false} ConcatSplits(parts: seq<Entry<seq<FileRecord>>>, i: nat)
    requires i <= |parts|
    ensures Concat(parts) == Concat(parts[..i]) + Concat(parts[i..])
  {
    if i > 0 {
      ConcatSplits(parts[1..], i - 1);
      assert parts[..i][1..] == parts[1..][..i - 1] && parts[1..][i - 1..] == parts[i..];
    } else {
      assert parts[0..] == parts;
    }
  }

  lemma AtPrefixConcat(prefix: Path, a: seq<FileRecord>, b: seq<FileRecord>)
    ensures AtPrefix(prefix, a + b) == AtPrefix(prefix, a) + AtPrefix(prefix, b)
  {
  }

  lemma AtPrefixUnder(prefix: Path, name: Text, records: seq<FileRecord>)
    ensures AtPrefix(prefix, Under(name, records)) == AtPrefix(prefix + [name], records)
  {
    forall i | 0 <= i < |records| ensures prefix + ([name] + records[i].path) == prefix + [name] + records[i].path {
    }
  }

  lemma {:induction false} TotalBytesMonotone(a: seq<FileRecord>, b: seq<FileRecord>)
    ensures TotalBytes(a) <= TotalBytes(a + b)
  {
    if b == [] {
      assert a + b == a;
    } else {
      TotalBytesMonotone(a, b[..|b| - 1]);
      assert (a + b)[..|a + b| - 1] == a + b[..|b| - 1];
    }
  }

  lemma BoundsOfPrefix(a: seq<FileRecord>, b: seq<FileRecord>)
    requires WithinBounds(a + b)
    ensures WithinBounds(a)
  {
    TotalBytesMonotone(a, b);
  }

  /** Once out of bounds, a walk stays out of bounds. */
  lemma BoundsArePrefixClosed(before: seq<FileRecord>, prefix: Path, parts: seq<Entry<seq<FileRecord>>>, i: nat)
    requires i <= |parts|
    requires WithinBounds(before + AtPrefix(prefix, Concat(parts)))
    ensures WithinBounds(before + AtPrefix(prefix, Concat(parts[..i])))
  {
    var first, rest := Concat(parts[..i]), Concat(parts[i..]);
    ConcatSplits(parts, i);
    AtPrefixConcat(prefix, first, rest);
    assert before + (AtPrefix(prefix, first) + AtPrefix(prefix, rest)) ==
           (before + AtPrefix(prefix, first)) + AtPrefix(prefix, rest);
    BoundsOfPrefix(before + AtPrefix(prefix, first), AtPrefix(prefix, rest));
  }

  lemma SortedEntries(entries: seq<Entry<Node>>, digest: Digest)
    ensures |Sort(Below(entries, digest))| == |entries| && SameElements(Sort(entries), entries)
    ensures forall i :: 0 <= i < |entries| ==>
              Sort(Below(entries, digest))[i] == Entry(Sort(entries)[i].key, Records(Sort(entries)[i].value, digest))
  {
    SortElements(entries);
    SortByKeyOnly(entries, Below(entries, digest), node => Records(node, digest));
  }

  /** The walk's records and running totals. */
  class Walker {
    const digest: Digest
    var records: seq<FileRecord>
    var fileCount: nat
    var totalBytes: nat

    ghost predicate Valid()
      reads this
    {
      fileCount == |records| && totalBytes == TotalBytes(records) && WithinBounds(records)
    }

    constructor (digest: Digest)
      ensures Valid() && records == [] && this.digest == digest
    {
      this.digest := digest;
      records, fileCount, totalBytes := [], 0, 0;
    }

    /** Counts one file and records it, unless that exceeds a bound. */
    method AddFile(path: Path, content: seq<Byte>) returns (ok: bool)
      requires Valid()
      modifies this
      ensures ok ==> Valid() && records == old(records) + [FileRecord(path, |content|, digest(content))]
      ensures ok == WithinBounds(old(records) + [FileRecord(path, |content|, digest(content))])
    {
      var r := FileRecord(path, |content|, digest(content));
      assert (records + [r])[..|records|] == records;
      fileCount := fileCount + 1;
      totalBytes := totalBytes + |content|;
      if fileCount > MAX_TREE_FILES || totalBytes > MAX_TREE_BYTES {
        return false;
      }
      records := records + [r];
      return true;
    }

    /** Walks one directory; false stands for the error that ends the walk. */
    method Walk(entries: seq<Entry<Node>>, prefix: Path) returns (ok: bool)
      requires Valid()
      modifies this
      ensures ok ==> Valid() && OnlyFilesAndDirectories(Dir(entries))
      ensures ok ==> records == old(records) + AtPrefix(prefix, Records(Dir(entries), digest))
      ensures !ok ==> !(&& OnlyFilesAndDirectories(Dir(entries))
                        && WithinBounds(old(records) + AtPrefix(prefix, Records(Dir(entries), digest))))
      decreases entries
    {
      var sorted := Sort(entries);
      DoneEnds(entries, prefix, digest);
      for i := 0 to |sorted|
        invariant Valid()
        invariant records == old(records) + Done(entries, prefix, digest, i)
        invariant GoodUpTo(entries, i)
      {
        var e := sorted[i];
        GoodStep(entries, i);
        DoneStep(old(records), entries, prefix, digest, i);
        DoneBounds(old(records), entries, prefix, digest, i);
        match e.value {
          case Dir(children) =>
            var done := Walk(children, prefix + [e.key]);
            if !done {
              return false;
            }
          case File(content) =>
            FileAtPrefix(prefix + [e.key], content, digest);
            var added := AddFile(prefix + [e.key], content);
            if !added {
              return false;
            }
          case Other =>
            return false;
        }
      }
      GoodEnds(entries);
      return true;
    }
  }

  /** The stream that is hashed, unless the root is no directory or the walk ends in an error. */
  function TextOf(root: Node, digest: Digest): Option<Text> {
    if root.Dir? && OnlyFilesAndDirectories(root) && WithinBounds(Records(root, digest))
    then Some(Stream(Records(root, digest))) else None
  }

  method TreeText(root: Node, digest: Digest) returns (r: Option<Text>)
    ensures r == TextOf(root, digest)
  {
    if !root.Dir? {
      return None;
    }
    var walker := new Walker(digest);
    AtRoot(Records(root, digest));
    var ok := walker.Walk(root.entries, []);
    return if ok then Some(Stream(walker.records)) else None;
  }

  lemma AtRoot(records: seq<FileRecord>)
    ensures [] + AtPrefix([], records) == records
  {
    forall i | 0 <= i < |records| ensures [] + records[i].path == records[i].path {
    }
  }

  /** The first i entries in walking order hold only files and directories. */
  ghost predicate GoodUpTo(entries: seq<Entry<Node>>, i: nat)
    requires i <= |entries|
  {
    forall k :: 0 <= k < i ==> OnlyFilesAndDirectories(Sort(entries)[k].value)
  }

  lemma GoodStep(entries: seq<Entry<Node>>, i: nat)
    requires i < |entries|
    ensures Sort(entries)[i] in entries
    ensures OnlyFilesAndDirectories(Dir(entries)) ==> OnlyFilesAndDirectories(Sort(entries)[i].value)
    ensures GoodUpTo(entries, i) && OnlyFilesAndDirectories(Sort(entries)[i].value) ==> GoodUpTo(entries, i + 1)
  {
    SortElements(entries);
    assert Sort(entries)[i] in Sort(entries);
  }

  lemma GoodEnds(entries: seq<Entry<Node>>)
    requires GoodUpTo(entries, |entries|)
    ensures OnlyFilesAndDirectories(Dir(entries))
  {
    SortElements(entries);
    forall e | e in entries ensures OnlyFilesAndDirectories(e.value) {
      assert e in Sort(entries);
    }
  }

  /** What the walk of a directory has recorded after i entries. */
  ghost function Done(entries: seq<Entry<Node>>, prefix: Path, digest: Digest, i: nat): seq<FileRecord>
    requires i <= |entries|
  {
    AtPrefix(prefix, Concat(Sort(Below(entries, digest))[..i]))
  }

  lemma DoneEnds(entries: seq<Entry<Node>>, prefix: Path, digest: Digest)
    ensures Done(entries, prefix, digest, 0) == []
    ensures Done(entries, prefix, digest, |entries|) == AtPrefix(prefix, Records(Dir(entries), digest))
  {
    var parts := Sort(Below(entries, digest));
    assert parts[..|entries|] == parts;
  }

  lemma FileAtPrefix(path: Path, content: seq<Byte>, digest: Digest)
    ensures AtPrefix(path, Records(File(content), digest)) == [FileRecord(path, |content|, digest(content))]
  {
    assert path + [] == path;
  }

  lemma DoneGrows(entries: seq<Entry<Node>>, prefix: Path, digest: Digest, i: nat)
    requires i < |entries|
    ensures var e := Sort(entries)[i];
            Done(entries, prefix, digest, i + 1) ==
            Done(entries, prefix, digest, i) + AtPrefix(prefix + [e.key], Records(e.value, digest))
  {
    var parts, e := Sort(Below(entries, digest)), Sort(entries)[i];
    SortedEntries(entries, digest);
    ConcatStep(parts, i);
    AtPrefixConcat(prefix, Concat(parts[..i]), Under(e.key, parts[i].value));
    AtPrefixUnder(prefix, e.key, parts[i].value);
  }

  lemma DoneStep(before: seq<FileRecord>, entries: seq<Entry<Node>>, prefix: Path, digest: Digest, i: nat)
    requires i < |entries|
    ensures var e := Sort(entries)[i];
            before + Done(entries, prefix, digest, i) + AtPrefix(prefix + [e.key], Records(e.value, digest)) ==
            before + Done(entries, prefix, digest, i + 1)
  {
    DoneGrows(entries, prefix, digest, i);
    Associate(before, Done(entries, prefix, digest, i),
              AtPrefix(prefix + [Sort(entries)[i].key], Records(Sort(entries)[i].value, digest)));
  }

  lemma Associate(a: seq<FileRecord>, b: seq<FileRecord>, c: seq<FileRecord>)
    ensures a + b + c == a + (b + c)
  {
  }

  lemma DoneBounds(before: seq<FileRecord>, entries: seq<Entry<Node>>, prefix: Path, digest: Digest, i: nat)
    requires i < |entries|
    ensures WithinBounds(before + AtPrefix(prefix, Records(Dir(entries), digest))) ==>
              WithinBounds(before + Done(entries, prefix, digest, i + 1))
  {
    if WithinBounds(before + AtPrefix(prefix, Records(Dir(entries), digest))) {
      BoundsArePrefixClosed(before, prefix, Sort(Below(entries, digest)), i + 1);
    }
  }
}
