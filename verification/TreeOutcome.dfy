/**
 The text a directory tree is hashed over, told from the tree alone: which trees have one, and what it says of each
 file, line by line.
 */
module TreeOutcome {
  import opened Wrappers
  import opened Lexical
  import opened Decimal
  import opened TreeStream
  import opened TreeTheorems

  /******* What is in the tree *******/

  /** The node at a path. */
  ghost function NodeAt(node: Node, path: Path): Option<Node>
    decreases node
  {
    if path == [] then Some(node)
    else match node
      case Dir(entries) =>
        if exists e :: e in entries && e.key == path[0]
        then var e :| e in entries && e.key == path[0]; NodeAt(e.value, path[1..])
        else None
      case _ => None
  }

  /** Nothing in the tree is anything but a file or a directory. */
  ghost predicate Regular(node: Node) {
    forall path :: NodeAt(node, path) != Some(Other)
  }

  lemma {:induction false} OnlyRegular(node: Node, path: Path)
    requires OnlyFilesAndDirectories(node)
    ensures NodeAt(node, path) != Some(Other)
    decreases node
  {
    if path != [] && node.Dir? && exists e :: e in node.entries && e.key == path[0] {
      var e :| e in node.entries && e.key == path[0] && NodeAt(node, path) == NodeAt(e.value, path[1..]);
      OnlyRegular(e.value, path[1..]);
    }
  }

  lemma StepInto(entries: seq<Entry<Node>>, e: Entry<Node>, path: Path)
    requires DistinctKeys(entries) && e in entries
    ensures NodeAt(Dir(entries), [e.key] + path) == NodeAt(e.value, path)
  {
    var whole := [e.key] + path;
    assert whole[0] == e.key && whole[1..] == path;
    forall x | x in entries && x.key == e.key ensures x == e {
      var i :| 0 <= i < |entries| && entries[i] == x;
      var j :| 0 <= j < |entries| && entries[j] == e;
    }
  }

  lemma {:induction false} Irregular(node: Node) returns (path: Path)
    requires WellFormed(node) && !OnlyFilesAndDirectories(node)
    ensures NodeAt(node, path) == Some(Other)
    decreases node
  {
    match node
    case Other =>
      path := [];
    case Dir(entries) =>
      var e :| e in entries && !OnlyFilesAndDirectories(e.value);
      var below := Irregular(e.value);
      StepInto(entries, e, below);
      path := [e.key] + below;
  }

  lemma RegularIff(node: Node)
    requires WellFormed(node)
    ensures OnlyFilesAndDirectories(node) <==> Regular(node)
  {
    if OnlyFilesAndDirectories(node) {
      forall path ensures NodeAt(node, path) != Some(Other) {
        OnlyRegular(node, path);
      }
    } else {
      var path := Irregular(node);
    }
  }

  /******* What the text says *******/

  /** The names with a slash between neighbours. */
  ghost function Slashed(path: Path): Text {
    if path == [] then []
    else if |path| == 1 then path[0]
    else Slashed(path[..|path| - 1]) + ['/' as int] + path[|path| - 1]
  }

  /** Path, length in decimal and digest, each behind a NUL but the first, and a newline. */
  ghost function Line(r: FileRecord): Text {
    Slashed(r.path) + [0] + Dec(r.length) + [0] + r.digest + [10]
  }

  ghost function Lines(files: seq<FileRecord>): Text {
    if files == [] then [] else Lines(files[..|files| - 1]) + Line(files[|files| - 1])
  }

  ghost function Bytes(files: seq<FileRecord>): nat {
    if files == [] then 0 else files[0].length + Bytes(files[1..])
  }

  /** The files of the tree, each once, in ascending order of their paths. */
  ghost predicate Lists(files: seq<FileRecord>, root: Node, digest: Digest) {
    PathsAscend(files) && forall r :: r in files <==> IsRecordOf(r, root, digest)
  }

  lemma {:induction false} SlashedCons(name: Text, path: Path)
    requires path != []
    ensures Slashed([name] + path) == name + ['/' as int] + Slashed(path)
  {
    var whole, n := [name] + path, |path| - 1;
    if n == 0 {
      assert whole[..1] == [name] && Slashed([name]) == name;
    } else {
      assert whole[..|whole| - 1] == [name] + path[..n];
      SlashedCons(name, path[..n]);
    }
  }

  lemma {:induction false} JoinedIsSlashed(path: Path)
    ensures Joined(path) == Slashed(path)
  {
    if |path| > 1 {
      JoinedIsSlashed(path[1..]);
      SlashedCons(path[0], path[1..]);
      assert [path[0]] + path[1..] == path;
    }
  }

  lemma {:induction false} StreamSnoc(files: seq<FileRecord>, last: FileRecord)
    ensures Stream(files + [last]) == Stream(files) + Encode(last)
  {
    var longer := files + [last];
    if files == [] {
      assert longer[1..] == [] && Stream(longer) == Encode(last);
    } else {
      assert longer[1..] == files[1..] + [last];
      StreamSnoc(files[1..], last);
    }
  }

  lemma {:induction false} StreamIsLines(files: seq<FileRecord>)
    ensures Stream(files) == Lines(files)
  {
    if files != [] {
      var n := |files| - 1;
      StreamIsLines(files[..n]);
      StreamSnoc(files[..n], files[n]);
      JoinedIsSlashed(files[n].path);
      assert files == files[..n] + [files[n]];
    }
  }

  lemma {:induction false} BytesSnoc(files: seq<FileRecord>, last: FileRecord)
    ensures Bytes(files + [last]) == Bytes(files) + last.length
  {
    if files != [] {
      assert (files + [last])[1..] == files[1..] + [last];
      BytesSnoc(files[1..], last);
    }
  }

  lemma {:induction false} BytesIsTotal(files: seq<FileRecord>)
    ensures Bytes(files) == TotalBytes(files)
  {
    if files != [] {
      var n := |files| - 1;
      BytesIsTotal(files[..n]);
      BytesSnoc(files[..n], files[n]);
      assert files == files[..n] + [files[n]];
    }
  }

  lemma RecordsAreListed(root: Node, digest: Digest)
    requires WellFormed(root)
    ensures Lists(Records(root, digest), root, digest)
    ensures forall files :: Lists(files, root, digest) ==> files == Records(root, digest)
  {
    RecordsAscend(root, digest);
    forall r ensures r in Records(root, digest) <==> IsRecordOf(r, root, digest) {
      RecordsAreTheFiles(root, digest, r);
    }
    forall files | Lists(files, root, digest) ensures files == Records(root, digest) {
      AscendingPathsUnique(files, Records(root, digest));
    }
  }

  /**
   A tree has a text exactly when it is a directory of nothing but files and directories, of at most 512 files and
   four mebibytes; then the text lists its files, a line each, in ascending order.
   */
  lemma TextOfIff(root: Node, digest: Digest, text: Text)
    requires WellFormed(root)
    ensures TextOf(root, digest) == Some(text) <==>
            && root.Dir? && Regular(root)
            && exists files ::
                 && Lists(files, root, digest) && |files| <= 512 && Bytes(files) <= 4_194_304
                 && text == Lines(files)
  {
    RegularIff(root);
    RecordsAreListed(root, digest);
    BytesIsTotal(Records(root, digest));
    StreamIsLines(Records(root, digest));
  }
}
