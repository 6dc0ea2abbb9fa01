/**
 The manifest of a service tree (verifyWorkspaceManifest in scripts/notification-docs/lib.ts): the
 line-by-line check, the walk that collects the files, and the proof that together they accept one
 list of lines and no other.  Names and paths are the bytes that the source compares.
 */
module WorkspaceManifest {
  import opened Wrappers
  import opened Decimal
  import opened Lexical
  import opened Splitting
  import opened TreeStream
  import opened TreeTheorems

  const SPACE: Unit := 32
  const DOT: Unit := 46
  const LF: Unit := 10
  const CR: Unit := 13
  const BACKSLASH: Unit := 92

  /** Which top-level names count, which directories are caches, and where the manifest itself stands. */
  datatype Layout = Layout(allowed: set<Text>, caches: set<Text>, manifest: Text)

  predicate HashText(t: Text) {
    |t| == 64 && forall i :: 0 <= i < |t| ==> 48 <= t[i] < 58 || 97 <= t[i] < 103
  }

  type Hash = f: seq<Byte> -> Text | forall b :: HashText(f(b)) ghost witness _ => seq(64, _ => 48)

  /** What a directory listing yields: names are names, none is "." or "..", and none comes twice. */
  predicate Listing(node: Node) {
    match node
    case Dir(entries) =>
      DistinctKeys(entries) && forall e :: e in entries ==> ListedName(e.key) && Listing(e.value)
    case _ => true
  }

  predicate ListedName(name: Text) {
    ValidName(name) && name != [DOT] && name != [DOT, DOT]
  }

  lemma {:induction false} ListingIsWellFormed(node: Node)
    requires Listing(node)
    ensures WellFormed(node)
  {
    if node.Dir? {
      forall e | e in node.entries ensures WellFormed(e.value) {
        ListingIsWellFormed(e.value);
      }
    }
  }

  /******* Collecting the files *******/

  /** The files at or below an entry, by path from its directory; cache directories are not entered. */
  function Gathered(caches: set<Text>, name: Text, node: Node): set<Path>
    decreases node
  {
    match node
    case File(_) => {[name]}
    case Dir(entries) =>
      if name in caches then {}
      else set e, p | e in entries && p in Gathered(caches, e.key, e.value) :: [name] + p
    case Other => {}
  }

  /** Nothing but files and directories outside the caches. */
  predicate Plain(caches: set<Text>, name: Text, node: Node)
    decreases node
  {
    match node
    case File(_) => true
    case Dir(entries) => name in caches || forall e :: e in entries ==> Plain(caches, e.key, e.value)
    case Other => false
  }

  predicate Uncached(caches: set<Text>, path: Path) {
    forall i :: 0 <= i < |path| - 1 ==> path[i] !in caches
  }

  /** The walk gathers exactly the files that can be reached without entering a cache. */
  lemma {:induction false} GatheredIff(caches: set<Text>, name: Text, node: Node, p: Path)
    requires Listing(node)
    ensures p in Gathered(caches, name, node) <==>
            p != [] && p[0] == name && Lookup(node, p[1..]).Some? && Uncached(caches, p)
    decreases node
  {
    assert p != [] ==> p == [p[0]] + p[1..];
    match node
    case Other =>
    case File(_) =>
      if p != [] && p[0] == name && p[1..] == [] {
        assert p == [name];
      }
    case Dir(entries) =>
      if p == [] || p[0] != name {
      } else if |p| == 1 {
        NotGathered(caches, name, node);
      } else {
        UncachedStep(caches, p);
        GatheredTail(caches, name, entries, p[1..]);
        TailGatheredIff(caches, node, p[1..]);
      }
  }

  /** The induction step: below a directory, for a path from it. */
  lemma {:induction false} TailGatheredIff(caches: set<Text>, node: Node, tail: Path)
    requires Listing(node) && node.Dir? && tail != []
    ensures (exists e :: e in node.entries && tail in Gathered(caches, e.key, e.value)) <==>
            Lookup(node, tail).Some? && Uncached(caches, tail)
    decreases node, 0
  {
    assert tail == [tail[0]] + tail[1..];
    forall e | e in node.entries && e.key == tail[0]
      ensures tail in Gathered(caches, e.key, e.value) <==> Lookup(node, tail).Some? && Uncached(caches, tail)
    {
      GatheredIff(caches, e.key, e.value, tail);
      LookupEntry(node.entries, e, tail[1..]);
    }
    GatheredHeads(caches, node.entries, tail);
  }

  lemma UncachedStep(caches: set<Text>, p: Path)
    requires |p| > 1
    ensures Uncached(caches, p) <==> p[0] !in caches && Uncached(caches, p[1..])
  {
    if p[0] !in caches && Uncached(caches, p[1..]) {
      forall i | 0 <= i < |p| - 1 ensures p[i] !in caches {
        if i > 0 {
          assert p[i] == p[1..][i - 1];
        }
      }
    }
  }

  lemma GatheredTail(caches: set<Text>, name: Text, entries: seq<Entry<Node>>, tail: Path)
    ensures [name] + tail in Gathered(caches, name, Dir(entries)) <==>
            name !in caches && exists e :: e in entries && tail in Gathered(caches, e.key, e.value)
  {
    if [name] + tail in Gathered(caches, name, Dir(entries)) {
      var e, p :| e in entries && p in Gathered(caches, e.key, e.value) && [name] + p == [name] + tail;
      assert p == ([name] + p)[1..] == tail;
    }
  }

  /** A gathered path starts with its entry's name. */
  lemma GatheredHeads(caches: set<Text>, entries: seq<Entry<Node>>, tail: Path)
    ensures forall e :: e in entries && tail in Gathered(caches, e.key, e.value) ==> tail != [] && tail[0] == e.key
  {
  }

  lemma NotGathered(caches: set<Text>, name: Text, node: Node)
    requires node.Dir?
    ensures [name] !in Gathered(caches, name, node)
  {
    forall e | e in node.entries ensures [] !in Gathered(caches, e.key, e.value) {
    }
    assert forall p: Path :: p != [] ==> [name] + p != [name];
  }

  /** The path texts of some files below a directory, without the manifest. */
  function Texts(manifest: Text, prefix: Path, paths: set<Path>): set<Text> {
    set p | p in paths && Joined(prefix + p) != manifest :: Joined(prefix + p)
  }

  class Collector {
    const layout: Layout
    var paths: set<Text>

    constructor (layout: Layout)
      ensures paths == {} && this.layout == layout
    {
      this.layout := layout;
      paths := {};
    }

    /** Adds the files at or below one entry; false stands for the failure that ends the check. */
    method CollectEntry(prefix: Path, entry: Entry<Node>) returns (ok: bool)
      modifies this
      ensures ok == Plain(layout.caches, entry.key, entry.value)
      ensures ok ==> paths == old(paths) + Texts(layout.manifest, prefix, Gathered(layout.caches, entry.key, entry.value))
      decreases entry.value
    {
      match entry.value {
        case Other =>
          return false;
        case Dir(entries) =>
          if entry.key in layout.caches {
            return true;
          }
          for i := 0 to |entries|
            invariant forall j :: 0 <= j < i ==> Plain(layout.caches, entries[j].key, entries[j].value)
            invariant paths == old(paths) + TextsBelow(layout, prefix + [entry.key], entries[..i])
          {
            BelowStep(layout, prefix + [entry.key], entries, i);
            assert entries[i] in entries;
            var done := CollectEntry(prefix + [entry.key], entries[i]);
            if !done {
              return false;
            }
          }
          assert entries[..|entries|] == entries;
          BelowIsTexts(layout, prefix, entry.key, entries);
          return true;
        case File(_) =>
          var path := Joined(prefix + [entry.key]);
          if path != layout.manifest {
            paths := paths + {path};
          }
          return true;
      }
    }

    /** Collects below every allowed top-level entry. */
    method CollectTop(entries: seq<Entry<Node>>) returns (ok: bool)
      requires paths == {}
      modifies this
      ensures ok == TopPlain(layout, entries)
      ensures ok ==> paths == TopTexts(layout, entries)
    {
      for i := 0 to |entries|
        invariant forall j :: 0 <= j < i && entries[j].key in layout.allowed ==>
                    Plain(layout.caches, entries[j].key, entries[j].value)
        invariant paths == TopTexts(layout, entries[..i])
      {
        TopStep(layout, entries, i);
        if entries[i].key !in layout.allowed {
          continue;
        }
        var done := CollectEntry([], entries[i]);
        if !done {
          return false;
        }
      }
      assert entries[..|entries|] == entries;
      return true;
    }
  }

  /** The path texts collected from some entries of one directory. */
  function TextsBelow(layout: Layout, prefix: Path, entries: seq<Entry<Node>>): set<Text> {
    set e, t | e in entries && t in Texts(layout.manifest, prefix, Gathered(layout.caches, e.key, e.value)) :: t
  }

  lemma BelowStep(layout: Layout, prefix: Path, entries: seq<Entry<Node>>, i: nat)
    requires i < |entries|
    ensures TextsBelow(layout, prefix, entries[..i + 1]) ==
            TextsBelow(layout, prefix, entries[..i])
            + Texts(layout.manifest, prefix, Gathered(layout.caches, entries[i].key, entries[i].value))
  {
    assert forall e :: e in entries[..i + 1] <==> e in entries[..i] || e == entries[i];
  }

  lemma BelowIsTexts(layout: Layout, prefix: Path, name: Text, entries: seq<Entry<Node>>)
    requires name !in layout.caches
    ensures TextsBelow(layout, prefix + [name], entries) ==
            Texts(layout.manifest, prefix, Gathered(layout.caches, name, Dir(entries)))
  {
    var whole := Gathered(layout.caches, name, Dir(entries));
    forall t | t in TextsBelow(layout, prefix + [name], entries) ensures t in Texts(layout.manifest, prefix, whole) {
      var e, p :| e in entries && p in Gathered(layout.caches, e.key, e.value)
                  && Joined(prefix + [name] + p) == t && t != layout.manifest;
      assert prefix + [name] + p == prefix + ([name] + p) && [name] + p in whole;
    }
    forall t | t in Texts(layout.manifest, prefix, whole) ensures t in TextsBelow(layout, prefix + [name], entries) {
      var q :| q in whole && Joined(prefix + q) == t && t != layout.manifest;
      var e, p :| e in entries && p in Gathered(layout.caches, e.key, e.value) && q == [name] + p;
      assert prefix + [name] + p == prefix + q;
      assert t in Texts(layout.manifest, prefix + [name], Gathered(layout.caches, e.key, e.value));
    }
  }

  predicate TopPlain(layout: Layout, entries: seq<Entry<Node>>) {
    forall e :: e in entries && e.key in layout.allowed ==> Plain(layout.caches, e.key, e.value)
  }

  function TopTexts(layout: Layout, entries: seq<Entry<Node>>): set<Text> {
    set e, t | e in entries && e.key in layout.allowed
               && t in Texts(layout.manifest, [], Gathered(layout.caches, e.key, e.value)) :: t
  }

  lemma TopStep(layout: Layout, entries: seq<Entry<Node>>, i: nat)
    requires i < |entries|
    ensures TopTexts(layout, entries[..i + 1]) ==
            TopTexts(layout, entries[..i])
            + if entries[i].key in layout.allowed
              then Texts(layout.manifest, [], Gathered(layout.caches, entries[i].key, entries[i].value)) else {}
  {
    assert forall e :: e in entries[..i + 1] <==> e in entries[..i] || e == entries[i];
  }

  /** A file of the service: below an allowed name, outside the caches. */
  ghost predicate Owned(layout: Layout, entries: seq<Entry<Node>>, p: Path) {
    p != [] && p[0] in layout.allowed && Uncached(layout.caches, p) && Lookup(Dir(entries), p).Some?
  }

  lemma OwnedIff(layout: Layout, entries: seq<Entry<Node>>, p: Path)
    requires Listing(Dir(entries))
    ensures Owned(layout, entries, p) <==>
            exists e :: e in entries && e.key in layout.allowed && p in Gathered(layout.caches, e.key, e.value)
  {
    forall e | e in entries && p != [] && p[0] == e.key
      ensures p in Gathered(layout.caches, e.key, e.value) <==>
              Lookup(Dir(entries), p).Some? && Uncached(layout.caches, p)
    {
      GatheredIff(layout.caches, e.key, e.value, p);
      assert p == [e.key] + p[1..];
      LookupEntry(entries, e, p[1..]);
    }
    GatheredHeads(layout.caches, entries, p);
  }

  /** The collected texts are exactly the texts of the service's files, without the manifest. */
  lemma CollectedIff(layout: Layout, entries: seq<Entry<Node>>, t: Text)
    requires Listing(Dir(entries))
    ensures t in TopTexts(layout, entries) <==>
            t != layout.manifest && exists p :: Owned(layout, entries, p) && Joined(p) == t
  {
    if t in TopTexts(layout, entries) {
      var e, p :| e in entries && e.key in layout.allowed && p in Gathered(layout.caches, e.key, e.value)
                  && Joined([] + p) == t && t != layout.manifest;
      assert [] + p == p;
      OwnedIff(layout, entries, p);
    }
    if t != layout.manifest && exists p :: Owned(layout, entries, p) && Joined(p) == t {
      var p :| Owned(layout, entries, p) && Joined(p) == t;
      OwnedIff(layout, entries, p);
      var e :| e in entries && e.key in layout.allowed && p in Gathered(layout.caches, e.key, e.value);
      assert [] + p == p;
      assert t in Texts(layout.manifest, [], Gathered(layout.caches, e.key, e.value));
    }
  }

  /******* Lines *******/

  /** Splitting at every line feed, with the carriage return in front of it if there is one. */
  function SplitLines(body: Text): (lines: seq<Text>)
    ensures lines != []
    ensures forall line :: line in lines ==> LF !in line
  {
    if body == [] then [[]]
    else if body[0] == LF then [[]] + SplitLines(body[1..])
    else if |body| >= 2 && body[0] == CR && body[1] == LF then [[]] + SplitLines(body[2..])
    else var rest := SplitLines(body[1..]); [[body[0]] + rest[0]] + rest[1..]
  }

  /** The lines of a manifest: an empty last line is dropped. */
  function ManifestLines(body: Text): (lines: seq<Text>)
    ensures forall line :: line in lines ==> LF !in line
  {
    var lines := SplitLines(body);
    if lines[|lines| - 1] == [] then lines[..|lines| - 1] else lines
  }

  /** The lines, each ended by carriage return and line feed. */
  function WriteBody(lines: seq<Text>): Text {
    if lines == [] then [] else lines[0] + [CR, LF] + WriteBody(lines[1..])
  }

  lemma {:induction false} LineSplitsOff(line: Text, rest: Text)
    requires LF !in line
    ensures SplitLines(line + [CR, LF] + rest) == [line] + SplitLines(rest)
  {
    var body := line + [CR, LF] + rest;
    if line == [] {
      assert body[2..] == rest;
    } else {
      LineSplitsOff(line[1..], rest);
      assert body[1..] == line[1..] + [CR, LF] + rest;
      assert body[1] != LF;
      assert [line[0]] + line[1..] == line;
    }
  }

  lemma {:induction false} WrittenSplits(lines: seq<Text>)
    requires forall line :: line in lines ==> LF !in line
    ensures SplitLines(WriteBody(lines)) == lines + [[]]
  {
    if lines != [] {
      LineSplitsOff(lines[0], WriteBody(lines[1..]));
      WrittenSplits(lines[1..]);
      assert [lines[0]] + (lines[1..] + [[]]) == lines + [[]];
    }
  }

  /** Any lines without line feeds are the lines of a text, whatever they end in. */
  lemma BodySplits(lines: seq<Text>)
    requires forall line :: line in lines ==> LF !in line
    ensures SplitLines(WriteBody(lines)) == lines + [[]]
    ensures ManifestLines(WriteBody(lines)) == lines
  {
    WrittenSplits(lines);
    assert (lines + [[]])[..|lines|] == lines;
  }

  /** A line is a digest, two spaces and a path: an entry whose key is the path. */
  function PrintLine(e: Entry<Text>): Text {
    e.value + [32, 32] + e.key
  }

  function ParseLine(line: Text): Option<Entry<Text>> {
    if |line| > 66 && HashText(line[..64]) && line[64..66] == [SPACE, SPACE] && BACKSLASH !in line[66..]
    then Some(Entry(line[66..], line[..64])) else None
  }

  lemma LineParsesIff(line: Text, e: Entry<Text>)
    ensures ParseLine(line) == Some(e) <==>
            line == PrintLine(e) && HashText(e.value) && e.key != [] && BACKSLASH !in e.key
  {
    if |line| > 66 {
      assert line == line[..64] + line[64..66] + line[66..];
    }
  }

  /** The components of a path text. */
  function Parts(t: Text): (parts: seq<Text>)
    ensures parts != []
  {
    Split(t, SLASH)
  }

  lemma {:induction false} PartsOfJoined(p: Path)
    requires ValidPath(p)
    ensures Parts(Joined(p)) == p
  {
    assert p[0] in p;
    if |p| == 1 {
      SplitLastPart(p[0], SLASH);
    } else {
      PartsOfJoined(p[1..]);
      SplitAfterPart(p[0], Joined(p[1..]), SLASH);
      assert [p[0]] + p[1..] == p;
    }
  }

  /** Resolving against the service root drops "." components. */
  function Resolved(parts: seq<Text>): Path {
    if parts == [] then []
    else (if parts[0] == [DOT] then [] else [parts[0]]) + Resolved(parts[1..])
  }

  lemma {:induction false} NothingToResolve(parts: seq<Text>)
    requires [DOT] !in parts
    ensures Resolved(parts) == parts
  {
    if parts != [] {
      assert [DOT] !in parts[1..];
      NothingToResolve(parts[1..]);
    }
  }

  predicate SafePath(layout: Layout, path: Text) {
    && path != [] && path[0] != SLASH && path != [DOT]
    && [] !in Parts(path) && [DOT, DOT] !in Parts(path)
    && path != layout.manifest
  }

  /** The entry names a regular file of the tree, by its digest. */
  ghost predicate Genuine(layout: Layout, entries: seq<Entry<Node>>, hash: Hash, e: Entry<Text>) {
    && SafePath(layout, e.key)
    && var content := Lookup(Dir(entries), Resolved(Parts(e.key)));
       content.Some? && hash(content.value) == e.value
  }

  /******* What the check accepts *******/

  /** The entry a file of the service must have. */
  ghost predicate Expected(layout: Layout, entries: seq<Entry<Node>>, hash: Hash, e: Entry<Text>) {
    e.key != layout.manifest &&
    exists p :: Owned(layout, entries, p) && e == Entry(Joined(p), hash(Lookup(Dir(entries), p).value))
  }

  predicate Parse(lines: seq<Text>) {
    forall i :: 0 <= i < |lines| ==> ParseLine(lines[i]).Some?
  }

  function Listed(lines: seq<Text>): seq<Entry<Text>>
    requires Parse(lines)
  {
    seq(|lines|, i requires 0 <= i < |lines| => ParseLine(lines[i]).value)
  }

  /** At least one line; strictly ascending paths; exactly one line for each file of a tree without strange files. */
  ghost predicate Describes(layout: Layout, entries: seq<Entry<Node>>, hash: Hash, lines: seq<Text>) {
    && lines != [] && Parse(lines) && Ascending(Listed(lines)) && TopPlain(layout, entries)
    && Exactly(layout, entries, hash, Listed(lines))
  }

  ghost predicate Exactly(layout: Layout, entries: seq<Entry<Node>>, hash: Hash, es: seq<Entry<Text>>) {
    forall e :: e in es <==> Expected(layout, entries, hash, e)
  }

  ghost predicate AllGenuine(layout: Layout, entries: seq<Entry<Node>>, hash: Hash, es: seq<Entry<Text>>) {
    forall e :: e in es ==> Genuine(layout, entries, hash, e)
  }

  lemma {:induction false} FilesHaveValidPaths(node: Node, p: Path)
    requires Listing(node) && p != [] && Lookup(node, p).Some?
    ensures ValidPath(p) && [DOT] !in p && [DOT, DOT] !in p
    decreases node
  {
    var e :| e in node.entries && e.key == p[0];
    assert p == [e.key] + p[1..];
    LookupEntry(node.entries, e, p[1..]);
    if |p| > 1 {
      FilesHaveValidPaths(e.value, p[1..]);
    }
  }

  /** An expected entry passes every check on its line. */
  lemma ExpectedIsGenuine(layout: Layout, entries: seq<Entry<Node>>, hash: Hash, e: Entry<Text>)
    requires Listing(Dir(entries)) && Expected(layout, entries, hash, e)
    ensures Genuine(layout, entries, hash, e)
  {
    var p :| Owned(layout, entries, p) && e == Entry(Joined(p), hash(Lookup(Dir(entries), p).value));
    FilesHaveValidPaths(Dir(entries), p);
    PartsOfJoined(p);
    NothingToResolve(p);
    assert p[0] in p;
    SplitLastPart([DOT], SLASH);
  }

  /** A genuine entry with a collected path is expected. */
  lemma GenuineIsExpected(layout: Layout, entries: seq<Entry<Node>>, hash: Hash, e: Entry<Text>)
    requires Listing(Dir(entries)) && Genuine(layout, entries, hash, e) && e.key in TopTexts(layout, entries)
    ensures Expected(layout, entries, hash, e)
  {
    CollectedIff(layout, entries, e.key);
    var p :| Owned(layout, entries, p) && Joined(p) == e.key;
    FilesHaveValidPaths(Dir(entries), p);
    PartsOfJoined(p);
    NothingToResolve(p);
  }

  function Keys(es: seq<Entry<Text>>): set<Text> {
    set e | e in es :: e.key
  }

  /** Genuine entries for exactly the collected paths are exactly the expected entries. */
  lemma CoveringIsDescribing(layout: Layout, entries: seq<Entry<Node>>, hash: Hash, es: seq<Entry<Text>>)
    requires Listing(Dir(entries))
    requires AllGenuine(layout, entries, hash, es) && Keys(es) == TopTexts(layout, entries)
    ensures Exactly(layout, entries, hash, es)
  {
    forall e | e in es ensures Expected(layout, entries, hash, e) {
      assert e.key in Keys(es);
      GenuineIsExpected(layout, entries, hash, e);
    }
    forall e | Expected(layout, entries, hash, e) ensures e in es {
      CollectedIff(layout, entries, e.key);
      ExpectedIsGenuine(layout, entries, hash, e);
      var same :| same in es && same.key == e.key;
      assert Genuine(layout, entries, hash, same);
    }
  }

  /** The expected entries have exactly the collected paths. */
  lemma DescribedKeys(layout: Layout, entries: seq<Entry<Node>>, hash: Hash, es: seq<Entry<Text>>)
    requires Listing(Dir(entries)) && Exactly(layout, entries, hash, es)
    ensures Keys(es) == TopTexts(layout, entries)
  {
    forall t ensures t in Keys(es) <==> t in TopTexts(layout, entries) {
      CollectedIff(layout, entries, t);
      if t in TopTexts(layout, entries) {
        var p :| Owned(layout, entries, p) && Joined(p) == t;
        assert Expected(layout, entries, hash, Entry(t, hash(Lookup(Dir(entries), p).value)));
      }
    }
  }

  function LastKey(es: seq<Entry<Text>>): Option<Text> {
    if es == [] then None else Some(es[|es| - 1].key)
  }

  /** The checks on one line, given the paths before it and the last of them. */
  ghost predicate LineFits(layout: Layout, entries: seq<Entry<Node>>, hash: Hash, line: Text, before: set<Text>,
                           previous: Option<Text>)
  {
    && ParseLine(line).Some?
    && EntryFits(layout, entries, hash, ParseLine(line).value, before, previous)
  }

  ghost predicate EntryFits(layout: Layout, entries: seq<Entry<Node>>, hash: Hash, e: Entry<Text>, before: set<Text>,
                            previous: Option<Text>)
  {
    && Genuine(layout, entries, hash, e)
    && e.key !in before && (previous.Some? ==> Less(previous.value, e.key))
  }

  /** Every line of a described manifest fits. */
  lemma DescribedLine(layout: Layout, entries: seq<Entry<Node>>, hash: Hash, lines: seq<Text>, i: nat)
    requires Listing(Dir(entries)) && Describes(layout, entries, hash, lines) && i < |lines|
    ensures Parse(lines[..i])
    ensures LineFits(layout, entries, hash, lines[i], Keys(Listed(lines[..i])), LastKey(Listed(lines[..i])))
  {
    var es := Listed(lines);
    assert Listed(lines[..i]) == es[..i];
    DescribedEntry(layout, entries, hash, es, i);
  }

  lemma DescribedEntry(layout: Layout, entries: seq<Entry<Node>>, hash: Hash, es: seq<Entry<Text>>, i: nat)
    requires Listing(Dir(entries)) && Ascending(es) && Exactly(layout, entries, hash, es) && i < |es|
    ensures EntryFits(layout, entries, hash, es[i], Keys(es[..i]), LastKey(es[..i]))
  {
    assert es[i] in es;
    ExpectedIsGenuine(layout, entries, hash, es[i]);
    AscendingIsDistinct(es);
    forall e | e in es[..i] ensures e.key != es[i].key {
      var j :| 0 <= j < i && es[j] == e;
    }
  }

  lemma AscendingSnoc(es: seq<Entry<Text>>, e: Entry<Text>)
    requires Ascending(es) && (es != [] ==> Less(es[|es| - 1].key, e.key))
    ensures Ascending(es + [e])
  {
    forall i | 0 <= i < |es| ensures Less(es[i].key, e.key) {
      if i < |es| - 1 {
        LessTransitive(es[i].key, es[|es| - 1].key, e.key);
      }
    }
  }

  lemma ListedSnoc(lines: seq<Text>, i: nat)
    requires i < |lines| && Parse(lines[..i]) && ParseLine(lines[i]).Some?
    ensures Parse(lines[..i + 1]) && Listed(lines[..i + 1]) == Listed(lines[..i]) + [ParseLine(lines[i]).value]
    ensures Keys(Listed(lines[..i + 1])) == Keys(Listed(lines[..i])) + {ParseLine(lines[i]).value.key}
  {
    var before, e := Listed(lines[..i]), ParseLine(lines[i]).value;
    assert forall x :: x in before + [e] <==> x in before || x == e;
  }

  /******* Looking a file up *******/

  function FindEntry(entries: seq<Entry<Node>>, name: Text): (r: Option<Entry<Node>>)
    ensures r.Some? ==> r.value in entries && r.value.key == name
    ensures r.None? ==> forall e :: e in entries ==> e.key != name
  {
    if entries == [] then None
    else if entries[0].key == name then Some(entries[0])
    else FindEntry(entries[1..], name)
  }

  function FileAt(node: Node, path: Path): Option<seq<Byte>>
    decreases |path|
  {
    match node
    case File(content) => if path == [] then Some(content) else None
    case Other => None
    case Dir(entries) =>
      if path == [] then None
      else
        match FindEntry(entries, path[0])
        case None => None
        case Some(e) => FileAt(e.value, path[1..])
  }

  lemma {:induction false} FileAtIsLookup(node: Node, path: Path)
    requires Listing(node)
    ensures FileAt(node, path) == Lookup(node, path)
    decreases |path|
  {
    if node.Dir? && path != [] {
      var found := FindEntry(node.entries, path[0]);
      if found.Some? {
        assert path == [found.value.key] + path[1..];
        LookupEntry(node.entries, found.value, path[1..]);
        FileAtIsLookup(found.value.value, path[1..]);
      }
    }
  }

  /******* The source's check *******/

  /** The checks on one line's path and content, but for its place in the list. */
  method CheckEntry(layout: Layout, entries: seq<Entry<Node>>, hash: Hash, e: Entry<Text>) returns (ok: bool)
    requires Listing(Dir(entries)) && e.key != []
    ensures ok <==> Genuine(layout, entries, hash, e)
  {
    if e.key[0] == SLASH || e.key == [DOT] || [] in Parts(e.key) || [DOT, DOT] in Parts(e.key)
       || e.key == layout.manifest {
      return false;
    }
    var target := Resolved(Parts(e.key));
    FileAtIsLookup(Dir(entries), target);
    var content := FileAt(Dir(entries), target);
    return content.Some? && hash(content.value) == e.value;
  }

  /** The lines so far passed the loop. */
  ghost predicate Passed(layout: Layout, entries: seq<Entry<Node>>, hash: Hash, lines: seq<Text>) {
    Parse(lines) && Ascending(Listed(lines)) && AllGenuine(layout, entries, hash, Listed(lines))
  }

  lemma PassedSnoc(layout: Layout, entries: seq<Entry<Node>>, hash: Hash, lines: seq<Text>, i: nat)
    requires i < |lines| && Passed(layout, entries, hash, lines[..i])
    requires LineFits(layout, entries, hash, lines[i], Keys(Listed(lines[..i])), LastKey(Listed(lines[..i])))
    ensures Passed(layout, entries, hash, lines[..i + 1])
    ensures Keys(Listed(lines[..i + 1])) == Keys(Listed(lines[..i])) + {ParseLine(lines[i]).value.key}
    ensures LastKey(Listed(lines[..i + 1])) == Some(ParseLine(lines[i]).value.key)
  {
    ListedSnoc(lines, i);
    FitSnoc(layout, entries, hash, Listed(lines[..i]), ParseLine(lines[i]).value);
  }

  lemma FitSnoc(layout: Layout, entries: seq<Entry<Node>>, hash: Hash, es: seq<Entry<Text>>, e: Entry<Text>)
    requires Ascending(es) && AllGenuine(layout, entries, hash, es)
    requires EntryFits(layout, entries, hash, e, Keys(es), LastKey(es))
    ensures Ascending(es + [e]) && AllGenuine(layout, entries, hash, es + [e]) && LastKey(es + [e]) == Some(e.key)
  {
    AscendingSnoc(es, e);
  }

  method CheckLine(layout: Layout, entries: seq<Entry<Node>>, hash: Hash, line: Text, manifestPaths: set<Text>,
                   previous: Option<Text>) returns (ok: bool)
    requires Listing(Dir(entries))
    ensures ok == LineFits(layout, entries, hash, line, manifestPaths, previous)
  {
    var parsed := ParseLine(line);
    if parsed.None? {
      return false;
    }
    var path := parsed.value.key;
    if path in manifestPaths || (previous.Some? && !Less(previous.value, path)) {
      return false;
    }
    ok := CheckEntry(layout, entries, hash, parsed.value);
  }

  /** The loop over the lines; the set of paths is returned for the comparison with the tree. */
  method CheckLines(layout: Layout, entries: seq<Entry<Node>>, hash: Hash, lines: seq<Text>)
    returns (ok: bool, manifestPaths: set<Text>)
    requires Listing(Dir(entries))
    ensures ok ==> Passed(layout, entries, hash, lines) && manifestPaths == Keys(Listed(lines))
    ensures !ok ==> !Describes(layout, entries, hash, lines)
  {
    manifestPaths := {};
    var previous: Option<Text> := None;
    for i := 0 to |lines|
      invariant Passed(layout, entries, hash, lines[..i])
      invariant manifestPaths == Keys(Listed(lines[..i])) && previous == LastKey(Listed(lines[..i]))
    {
      if Describes(layout, entries, hash, lines) {
        DescribedLine(layout, entries, hash, lines, i);
      }
      var fits := CheckLine(layout, entries, hash, lines[i], manifestPaths, previous);
      if !fits {
        return false, manifestPaths;
      }
      PassedSnoc(layout, entries, hash, lines, i);
      previous := Some(ParseLine(lines[i]).value.key);
      manifestPaths := manifestPaths + {ParseLine(lines[i]).value.key};
    }
    assert lines[..|lines|] == lines;
    ok := true;
  }

  /** The whole check of a manifest's text. */
  method VerifyManifest(layout: Layout, entries: seq<Entry<Node>>, hash: Hash, body: Text) returns (ok: bool)
    requires Listing(Dir(entries))
    ensures ok <==> Describes(layout, entries, hash, ManifestLines(body))
  {
    var lines := SplitLines(body);
    if lines[|lines| - 1] == [] {
      lines := lines[..|lines| - 1];
    }
    if lines == [] {
      return false;
    }
    var passed, manifestPaths := CheckLines(layout, entries, hash, lines);
    if !passed {
      return false;
    }
    var collector := new Collector(layout);
    var plain := collector.CollectTop(entries);
    if !plain {
      return false;
    }
    ok := SameSets(collector.paths, manifestPaths);
    if ok {
      CoveringIsDescribing(layout, entries, hash, Listed(lines));
    } else if Describes(layout, entries, hash, lines) {
      DescribedKeys(layout, entries, hash, Listed(lines));
    }
  }

  /** Equal sizes and both inclusions. */
  predicate SameSets(expected: set<Text>, listed: set<Text>) {
    && |expected| == |listed|
    && !(exists path :: path in expected && path !in listed)
    && !(exists path :: path in listed && path !in expected)
  }

  /** A tree has at most one manifest: texts that verify have the same lines. */
  lemma AtMostOneManifest(layout: Layout, entries: seq<Entry<Node>>, hash: Hash, body: Text, other: Text)
    requires Describes(layout, entries, hash, ManifestLines(body))
    requires Describes(layout, entries, hash, ManifestLines(other))
    ensures ManifestLines(body) == ManifestLines(other)
  {
    AscendingUnique(Listed(ManifestLines(body)), Listed(ManifestLines(other)));
    ListedDetermines(ManifestLines(body), ManifestLines(other));
  }

  lemma ListedDetermines(lines: seq<Text>, others: seq<Text>)
    requires Parse(lines) && Parse(others) && Listed(lines) == Listed(others)
    ensures lines == others
  {
    assert |lines| == |Listed(lines)| && |others| == |Listed(others)|;
    forall i | 0 <= i < |lines| ensures lines[i] == others[i] {
      assert Listed(lines)[i] == Listed(others)[i];
      LineParsesIff(lines[i], Listed(lines)[i]);
      LineParsesIff(others[i], Listed(lines)[i]);
    }
  }

  /******* Which trees have a manifest *******/

  ghost predicate HasEntry(layout: Layout, entries: seq<Entry<Node>>, hash: Hash, t: Text) {
    exists e: Entry<Text> :: e.key == t && Genuine(layout, entries, hash, e)
  }

  lemma EntryFor(layout: Layout, entries: seq<Entry<Node>>, hash: Hash, t: Text)
    requires Listing(Dir(entries)) && t in TopTexts(layout, entries)
    ensures HasEntry(layout, entries, hash, t)
  {
    CollectedIff(layout, entries, t);
    var p :| Owned(layout, entries, p) && Joined(p) == t;
    ExpectedIsGenuine(layout, entries, hash, Entry(t, hash(Lookup(Dir(entries), p).value)));
  }

  /** One entry for each of some path texts. */
  ghost predicate Entries(layout: Layout, entries: seq<Entry<Node>>, hash: Hash, texts: set<Text>, es: seq<Entry<Text>>) {
    Keys(es) == texts && DistinctKeys(es) && AllGenuine(layout, entries, hash, es)
  }

  lemma {:induction false} EntriesFor(layout: Layout, entries: seq<Entry<Node>>, hash: Hash, texts: set<Text>)
    returns (es: seq<Entry<Text>>)
    requires forall t :: t in texts ==> HasEntry(layout, entries, hash, t)
    ensures Entries(layout, entries, hash, texts, es)
    decreases texts
  {
    if texts == {} {
      es := [];
    } else {
      var t :| t in texts;
      es := EntriesFor(layout, entries, hash, texts - {t});
      es := AddEntry(layout, entries, hash, texts, t, es);
    }
  }

  lemma AddEntry(layout: Layout, entries: seq<Entry<Node>>, hash: Hash, texts: set<Text>, t: Text,
                 rest: seq<Entry<Text>>) returns (es: seq<Entry<Text>>)
    requires t in texts && Entries(layout, entries, hash, texts - {t}, rest) && HasEntry(layout, entries, hash, t)
    ensures Entries(layout, entries, hash, texts, es)
  {
    var e: Entry<Text> :| e.key == t && Genuine(layout, entries, hash, e);
    es := [e] + rest;
    ConsKeys(e, rest);
    assert texts == {t} + (texts - {t});
  }

  lemma ConsKeys(e: Entry<Text>, rest: seq<Entry<Text>>)
    requires DistinctKeys(rest) && e.key !in Keys(rest)
    ensures DistinctKeys([e] + rest) && Keys([e] + rest) == {e.key} + Keys(rest)
    ensures forall x :: x in [e] + rest <==> x == e || x in rest
  {
    assert forall i :: 0 <= i < |rest| ==> rest[i].key in Keys(rest);
    assert forall x :: x in [e] + rest <==> x == e || x in rest;
  }

  /** A path that a line can hold. */
  predicate Writable(path: Text) {
    BACKSLASH !in path && LF !in path
  }

  function PrintedLines(es: seq<Entry<Text>>): seq<Text> {
    seq(|es|, i requires 0 <= i < |es| => PrintLine(es[i]))
  }

  lemma PrintedLinesParse(es: seq<Entry<Text>>)
    requires forall e :: e in es ==> HashText(e.value) && e.key != [] && Writable(e.key)
    ensures Parse(PrintedLines(es)) && Listed(PrintedLines(es)) == es
    ensures forall line :: line in PrintedLines(es) ==> LF !in line
  {
    forall i | 0 <= i < |es| ensures ParseLine(PrintLine(es[i])) == Some(es[i]) && LF !in PrintLine(es[i]) {
      assert es[i] in es;
      LineParsesIff(PrintLine(es[i]), es[i]);
    }
  }

  /**
   There is a text that verifies exactly for trees of plain files, at least one, with neither a backslash nor a
   line feed in a path.
   */
  lemma ManifestExistsIff(layout: Layout, entries: seq<Entry<Node>>, hash: Hash)
    requires Listing(Dir(entries))
    ensures (exists body :: Describes(layout, entries, hash, ManifestLines(body))) <==>
            && TopPlain(layout, entries) && TopTexts(layout, entries) != {}
            && forall t :: t in TopTexts(layout, entries) ==> Writable(t)
  {
    if body :| Describes(layout, entries, hash, ManifestLines(body)) {
      ManifestNeeds(layout, entries, hash, body);
    }
    if && TopPlain(layout, entries) && TopTexts(layout, entries) != {}
       && forall t :: t in TopTexts(layout, entries) ==> Writable(t) {
      var body := WriteManifest(layout, entries, hash);
    }
  }

  lemma ManifestNeeds(layout: Layout, entries: seq<Entry<Node>>, hash: Hash, body: Text)
    requires Listing(Dir(entries)) && Describes(layout, entries, hash, ManifestLines(body))
    ensures TopTexts(layout, entries) != {} && forall t :: t in TopTexts(layout, entries) ==> Writable(t)
  {
    var lines := ManifestLines(body);
    var es := Listed(lines);
    DescribedKeys(layout, entries, hash, es);
    assert es[0] in es && es[0].key in Keys(es);
    forall t | t in Keys(es) ensures Writable(t) {
      var i :| 0 <= i < |es| && es[i].key == t;
      ParsedIsWritable(lines[i]);
    }
  }

  lemma ParsedIsWritable(line: Text)
    requires ParseLine(line).Some? && LF !in line
    ensures Writable(ParseLine(line).value.key)
  {
  }

  lemma WriteManifest(layout: Layout, entries: seq<Entry<Node>>, hash: Hash) returns (body: Text)
    requires Listing(Dir(entries)) && TopPlain(layout, entries) && TopTexts(layout, entries) != {}
    requires forall t :: t in TopTexts(layout, entries) ==> Writable(t)
    ensures Describes(layout, entries, hash, ManifestLines(body))
  {
    forall t | t in TopTexts(layout, entries) ensures HasEntry(layout, entries, hash, t) {
      EntryFor(layout, entries, hash, t);
    }
    var some := EntriesFor(layout, entries, hash, TopTexts(layout, entries));
    SortSorts(some);
    SortedKeys(layout, entries, hash, some);
    var es := Sort(some);
    GenuineIsPrintable(layout, entries, hash, es);
    CoveringIsDescribing(layout, entries, hash, es);
    PrintedLinesParse(es);
    body := WriteBody(PrintedLines(es));
    BodySplits(PrintedLines(es));
  }

  lemma SortedKeys(layout: Layout, entries: seq<Entry<Node>>, hash: Hash, es: seq<Entry<Text>>)
    requires AllGenuine(layout, entries, hash, es)
    ensures AllGenuine(layout, entries, hash, Sort(es)) && Keys(Sort(es)) == Keys(es)
  {
    SortElements(es);
  }

  lemma GenuineIsPrintable(layout: Layout, entries: seq<Entry<Node>>, hash: Hash, es: seq<Entry<Text>>)
    requires AllGenuine(layout, entries, hash, es) && forall t :: t in Keys(es) ==> Writable(t)
    ensures forall e :: e in es ==> HashText(e.value) && e.key != [] && Writable(e.key)
  {
    forall e | e in es ensures HashText(e.value) && e.key != [] && Writable(e.key) {
      assert e.key in Keys(es) && Genuine(layout, entries, hash, e);
    }
  }
}
