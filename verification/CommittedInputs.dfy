/**
 The committed inputs of a preparation (committedInputs in scripts/r-ext-go-qualification/preflight.ts):
 the inventory read from `git ls-tree -z`, and the blobs of the requested paths, in request order.
 */
module CommittedInputs {
  import opened Wrappers
  import opened Decimal
  import opened Lexical
  import opened Splitting
  import opened BatchFraming

  const NUL: Unit := 0
  const TAB: Unit := 9

  /** "100644" and "100755" */
  const PLAIN_MODE: Text := [49, 48, 48, 54, 52, 52]
  const EXECUTABLE_MODE: Text := [49, 48, 48, 55, 53, 53]

  /** One blob of a tree, as git lists it. */
  datatype Record = Record(executable: bool, oid: Oid, path: Text)

  /** What "." matches, at least once. */
  predicate LinePath(path: Text) {
    path != [] && forall i :: 0 <= i < |path| ==> path[i] != 10 && path[i] != 13 && path[i] != 0x2028 && path[i] != 0x2029
  }

  /** "100644" or "100755", " blob ", the object id, a tabulator and the path. */
  function PrintRecord(r: Record): Text {
    [49, 48, 48] + (if r.executable then [55, 53, 53] else [54, 52, 52]) + [32, 98, 108, 111, 98, 32] + r.oid + [9] + r.path
  }

  predicate HexText(t: Text) {
    |t| == 40 && forall i :: 0 <= i < 40 ==> 48 <= t[i] < 58 || 97 <= t[i] < 103
  }

  function OidOf(t: Text): Oid
    requires HexText(t)
  {
    seq(40, i requires 0 <= i < 40 => t[i])
  }

  function ParseRecord(entry: Text): Option<Record> {
    if && |entry| > 53 && (entry[..6] == PLAIN_MODE || entry[..6] == EXECUTABLE_MODE) && entry[6..12] == BLOB_WORD
       && HexText(entry[12..52]) && entry[52] == TAB && LinePath(entry[53..])
    then Some(Record(entry[..6] == EXECUTABLE_MODE, OidOf(entry[12..52]), entry[53..]))
    else None
  }

  /** The path is not empty and holds no line feed, carriage return, line separator or paragraph separator. */
  predicate OnOneLine(path: Text) {
    |path| > 0 && forall u :: u in path ==> u !in LINE_TERMINATORS
  }

  const LINE_TERMINATORS: set<int> := {10, 13, 0x2028, 0x2029}

  lemma LinePathIff(path: Text)
    ensures LinePath(path) <==> OnOneLine(path)
  {
  }

  lemma RecordParts(r: Record)
    ensures var t := PrintRecord(r);
            && |t| == 53 + |r.path| && t[..6] == (if r.executable then EXECUTABLE_MODE else PLAIN_MODE)
            && t[6..12] == BLOB_WORD && t[12..52] == r.oid && t[52] == TAB && t[53..] == r.path
  {
  }

  lemma OidOfOid(id: Oid, t: Text)
    requires t == id
    ensures HexText(t) && OidOf(t) == id
  {
  }

  lemma PrintedRecordParses(r: Record)
    requires LinePath(r.path)
    ensures ParseRecord(PrintRecord(r)) == Some(r)
  {
    RecordParts(r);
    OidOfOid(r.oid, PrintRecord(r)[12..52]);
    assert PLAIN_MODE[3] != EXECUTABLE_MODE[3];
  }

  lemma ParsedRecordIsPrinted(entry: Text)
    requires ParseRecord(entry).Some?
    ensures PrintRecord(ParseRecord(entry).value) == entry
  {
    assert entry == entry[..6] + entry[6..12] + entry[12..52] + [entry[52]] + entry[53..];
    assert entry[12..52] == OidOf(entry[12..52]);
  }

  lemma RecordParsesIff(entry: Text, r: Record)
    ensures ParseRecord(entry) == Some(r) <==> entry == PrintRecord(r) && OnOneLine(r.path)
  {
    LinePathIff(r.path);
    if ParseRecord(entry) == Some(r) {
      ParsedRecordIsPrinted(entry);
    }
    if entry == PrintRecord(r) && LinePath(r.path) {
      PrintedRecordParses(r);
    }
  }

  /******* The listing *******/

  function Lines(rs: seq<Record>): seq<Text> {
    seq(|rs|, i requires 0 <= i < |rs| => PrintRecord(rs[i]))
  }

  /** What git prints for these records. */
  function Listing(rs: seq<Record>): Text {
    Ended(Lines(rs), 0)
  }

  predicate DistinctPaths(rs: seq<Record>) {
    forall i, j :: 0 <= i < j < |rs| ==> rs[i].path != rs[j].path
  }

  /** As many records as paths, all different, each for a requested path. */
  predicate Covers(rs: seq<Record>, paths: seq<Text>) {
    && rs != [] && |rs| == |paths| && DistinctPaths(rs)
    && forall i :: 0 <= i < |rs| ==> rs[i].path in paths && OnOneLine(rs[i].path) && NUL !in rs[i].path
  }

  ghost predicate Inventory(paths: seq<Text>, tree: Text, rs: seq<Record>) {
    Covers(rs, paths) && tree == Listing(rs)
  }

  /** Each path is answered by the object of its own record. */
  ghost predicate Answers(paths: seq<Text>, rs: seq<Record>, ids: seq<Oid>) {
    |ids| == |paths| && forall i :: 0 <= i < |paths| ==> Answered(paths[i], rs, ids[i])
  }

  predicate Answered(path: Text, rs: seq<Record>, id: Oid) {
    exists k :: 0 <= k < |rs| && rs[k].path == path && rs[k].oid == id
  }

  function PathSet(rs: seq<Record>): set<Text> {
    set r | r in rs :: r.path
  }

  lemma {:induction false} PathCount(rs: seq<Record>)
    requires DistinctPaths(rs)
    ensures |PathSet(rs)| == |rs|
  {
    if rs != [] {
      var n := |rs| - 1;
      PathCount(rs[..n]);
      assert rs == rs[..n] + [rs[n]];
      assert PathSet(rs) == PathSet(rs[..n]) + {rs[n].path};
    }
  }

  function Elements(paths: seq<Text>): set<Text> {
    set p | p in paths
  }

  lemma {:induction false} ElementCount(paths: seq<Text>)
    ensures |Elements(paths)| <= |paths|
    ensures |Elements(paths)| == |paths| ==> forall i, j :: 0 <= i < j < |paths| ==> paths[i] != paths[j]
  {
    if paths != [] {
      var n := |paths| - 1;
      ElementCount(paths[..n]);
      assert paths == paths[..n] + [paths[n]];
      assert Elements(paths) == Elements(paths[..n]) + {paths[n]};
    }
  }

  lemma SubsetOfSameSize(a: set<Text>, b: set<Text>)
    requires a <= b && |a| >= |b|
    ensures a == b
  {
    assert |b - a| == |b| - |a|;
  }

  /** The counting argument behind the last lookup: every requested path has a record, and none is requested twice. */
  lemma CoversAll(rs: seq<Record>, paths: seq<Text>)
    requires Covers(rs, paths)
    ensures PathSet(rs) == Elements(paths)
    ensures forall i, j :: 0 <= i < j < |paths| ==> paths[i] != paths[j]
  {
    PathCount(rs);
    ElementCount(paths);
    assert PathSet(rs) <= Elements(paths);
    SubsetOfSameSize(PathSet(rs), Elements(paths));
  }

  /******* Reading the listing *******/

  predicate AllParse(entries: seq<Text>) {
    forall i :: 0 <= i < |entries| ==> ParseRecord(entries[i]).Some?
  }

  function Parsed(entries: seq<Text>): seq<Record>
    requires AllParse(entries)
  {
    seq(|entries|, i requires 0 <= i < |entries| => ParseRecord(entries[i]).value)
  }

  /** A listing is an inventory exactly when its entries parse to the records. */
  lemma InventoryIff(paths: seq<Text>, tree: Text, rs: seq<Record>)
    ensures Inventory(paths, tree, rs) <==>
            && tree != [] && tree[|tree| - 1] == NUL
            && var entries := Split(tree[..|tree| - 1], NUL);
            && AllParse(entries) && Parsed(entries) == rs && Covers(rs, paths)
  {
    SplitsIffEnded(tree, NUL, Lines(rs));
    if Inventory(paths, tree, rs) {
      LinesParse(rs, paths);
    }
    if tree != [] && tree[|tree| - 1] == NUL {
      var entries := Split(tree[..|tree| - 1], NUL);
      if AllParse(entries) && Parsed(entries) == rs {
        ParsedLines(entries);
      }
    }
  }

  lemma LinesParse(rs: seq<Record>, paths: seq<Text>)
    requires Covers(rs, paths)
    ensures AllParse(Lines(rs)) && Parsed(Lines(rs)) == rs
    ensures forall line :: line in Lines(rs) ==> NUL !in line
  {
    forall i | 0 <= i < |rs| ensures ParseRecord(Lines(rs)[i]) == Some(rs[i]) && NUL !in Lines(rs)[i] {
      RecordParsesIff(Lines(rs)[i], rs[i]);
      RecordHasNoNul(rs[i]);
    }
  }

  lemma RecordHasNoNul(r: Record)
    requires NUL !in r.path
    ensures NUL !in PrintRecord(r)
  {
    RecordParts(r);
  }

  lemma ParsedLines(entries: seq<Text>)
    requires AllParse(entries)
    ensures Lines(Parsed(entries)) == entries
  {
    forall i | 0 <= i < |entries| ensures PrintRecord(ParseRecord(entries[i]).value) == entries[i] {
      RecordParsesIff(entries[i], ParseRecord(entries[i]).value);
    }
  }

  ghost predicate SomeInventory(paths: seq<Text>, tree: Text) {
    exists rs :: Inventory(paths, tree, rs)
  }

  /******* The source's loops *******/

  /** The map of the records so far: their paths, each with its object. */
  ghost predicate Maps(objects: map<Text, Oid>, rs: seq<Record>) {
    objects.Keys == PathSet(rs) && forall i :: 0 <= i < |rs| ==> rs[i].path in objects && objects[rs[i].path] == rs[i].oid
  }

  /** The records so far are different, and requested. */
  ghost predicate Requested(rs: seq<Record>, paths: seq<Text>) {
    DistinctPaths(rs) && forall i :: 0 <= i < |rs| ==> rs[i].path in paths
  }

  lemma MapsSnoc(objects: map<Text, Oid>, rs: seq<Record>, r: Record, paths: seq<Text>)
    requires Maps(objects, rs) && Requested(rs, paths) && r.path !in objects && r.path in paths
    ensures Maps(objects[r.path := r.oid], rs + [r]) && Requested(rs + [r], paths)
  {
    assert forall x :: x in rs + [r] <==> x in rs || x == r;
    assert forall i :: 0 <= i < |rs| ==> rs[i].path in PathSet(rs);
  }

  lemma ParsedSnoc(entries: seq<Text>, i: nat)
    requires i < |entries| && AllParse(entries[..i]) && ParseRecord(entries[i]).Some?
    ensures AllParse(entries[..i + 1])
    ensures Parsed(entries[..i + 1]) == Parsed(entries[..i]) + [ParseRecord(entries[i]).value]
  {
    assert entries[..i + 1] == entries[..i] + [entries[i]];
  }

  /** In an inventory every entry is a new, requested record. */
  lemma InventoryEntry(paths: seq<Text>, tree: Text, entries: seq<Text>, i: nat)
    requires tree != [] && tree[|tree| - 1] == NUL && entries == Split(tree[..|tree| - 1], NUL) && i < |entries|
    requires SomeInventory(paths, tree)
    ensures AllParse(entries[..i]) && ParseRecord(entries[i]).Some?
    ensures ParseRecord(entries[i]).value.path in paths
    ensures ParseRecord(entries[i]).value.path !in PathSet(Parsed(entries[..i]))
  {
    var rs: seq<Record> :| Inventory(paths, tree, rs);
    InventoryIff(paths, tree, rs);
    assert rs[i] == ParseRecord(entries[i]).value && Parsed(entries[..i]) == rs[..i];
    forall r | r in rs[..i] ensures r.path != rs[i].path {
      var j :| 0 <= j < i && rs[j] == r;
    }
  }

  method ReadInventory(paths: seq<Text>, tree: Text) returns (r: Option<seq<Oid>>)
    ensures r.Some? <==> SomeInventory(paths, tree)
    ensures r.Some? ==> exists rs :: Inventory(paths, tree, rs) && Answers(paths, rs, r.value)
  {
    if tree == [] || tree[|tree| - 1] != NUL {
      ListingEnds(paths, tree);
      return None;
    }
    var entries := Split(tree[..|tree| - 1], NUL);
    if |entries| != |paths| {
      ListingEnds(paths, tree);
      return None;
    }
    var objects: map<Text, Oid> := map[];
    for i := 0 to |entries|
      invariant AllParse(entries[..i]) && Requested(Parsed(entries[..i]), paths) && Maps(objects, Parsed(entries[..i]))
    {
      if SomeInventory(paths, tree) {
        InventoryEntry(paths, tree, entries, i);
      }
      var record := ParseRecord(entries[i]);
      if record.None? || record.value.path !in paths || record.value.path in objects {
        return None;
      }
      ParsedSnoc(entries, i);
      MapsSnoc(objects, Parsed(entries[..i]), record.value, paths);
      objects := objects[record.value.path := record.value.oid];
    }
    assert entries[..|entries|] == entries;
    ghost var rs := Parsed(entries);
    EntriesCover(paths, tree, entries);
    // Every path has an entry by now, so the source's fallback for a missing one is never taken.
    CoversAll(rs, paths);
    var ids := Lookups(paths, objects);
    AnswersByMap(paths, objects, rs);
    return Some(ids);
  }

  lemma ListingEnds(paths: seq<Text>, tree: Text)
    ensures SomeInventory(paths, tree) ==>
              tree != [] && tree[|tree| - 1] == NUL && |Split(tree[..|tree| - 1], NUL)| == |paths|
  {
    if rs :| Inventory(paths, tree, rs) {
      InventoryIff(paths, tree, rs);
    }
  }

  lemma EntriesCover(paths: seq<Text>, tree: Text, entries: seq<Text>)
    requires tree != [] && tree[|tree| - 1] == NUL && entries == Split(tree[..|tree| - 1], NUL)
    requires AllParse(entries) && |entries| == |paths| && Requested(Parsed(entries), paths)
    ensures Inventory(paths, tree, Parsed(entries))
  {
    PartsAreWhole(tree[..|tree| - 1], NUL);
    var rs := Parsed(entries);
    forall i | 0 <= i < |rs| ensures OnOneLine(rs[i].path) && NUL !in rs[i].path {
      assert NUL !in entries[i];
      RecordParsesIff(entries[i], rs[i]);
      RecordParts(rs[i]);
    }
    InventoryIff(paths, tree, rs);
  }

  function Lookups(paths: seq<Text>, objects: map<Text, Oid>): seq<Oid>
    requires forall p :: p in paths ==> p in objects
  {
    seq(|paths|, i requires 0 <= i < |paths| => objects[paths[i]])
  }

  lemma AnswersByMap(paths: seq<Text>, objects: map<Text, Oid>, rs: seq<Record>)
    requires Maps(objects, rs) && PathSet(rs) == Elements(paths)
    ensures (forall p :: p in paths ==> p in objects) && Answers(paths, rs, Lookups(paths, objects))
  {
    assert forall p :: p in paths ==> p in Elements(paths);
    forall i | 0 <= i < |paths| ensures Answered(paths[i], rs, objects[paths[i]]) {
      assert paths[i] in PathSet(rs);
      var r :| r in rs && r.path == paths[i];
      var k :| 0 <= k < |rs| && rs[k] == r;
    }
  }

  /******* What is read *******/

  /** A listing has one reading. */
  lemma InventoryIsUnique(paths: seq<Text>, tree: Text, rs: seq<Record>, qs: seq<Record>)
    requires Inventory(paths, tree, rs) && Inventory(paths, tree, qs)
    ensures rs == qs
  {
    InventoryIff(paths, tree, rs);
    InventoryIff(paths, tree, qs);
  }

  /** Each path has one answer. */
  lemma AnswersAreUnique(paths: seq<Text>, rs: seq<Record>, ids: seq<Oid>, others: seq<Oid>)
    requires DistinctPaths(rs) && Answers(paths, rs, ids) && Answers(paths, rs, others)
    ensures ids == others
  {
    forall i | 0 <= i < |paths| ensures ids[i] == others[i] {
      OneAnswer(paths[i], rs, ids[i], others[i]);
    }
  }

  lemma OneAnswer(path: Text, rs: seq<Record>, id: Oid, other: Oid)
    requires DistinctPaths(rs) && Answered(path, rs, id) && Answered(path, rs, other)
    ensures id == other
  {
    var k :| 0 <= k < |rs| && rs[k].path == path && rs[k].oid == id;
    var m :| 0 <= m < |rs| && rs[m].path == path && rs[m].oid == other;
    assert k == m;
  }

  /** Both readings; `cat` stands for the second call to git, which is given the objects of the first. */
  method CommittedInputs(paths: seq<Text>, tree: Text, cat: seq<Oid> -> seq<Byte>) returns (r: Option<seq<seq<Byte>>>)
    ensures r.Some? ==> SomeInventory(paths, tree)
    ensures forall rs, ids :: Inventory(paths, tree, rs) && Answers(paths, rs, ids) ==> r == ParseAll(ids, cat(ids))
  {
    var ids := ReadInventory(paths, tree);
    if ids.None? {
      return None;
    }
    r := ParseBatch(ids.value, cat(ids.value));
    forall rs, others | Inventory(paths, tree, rs) && Answers(paths, rs, others) ensures others == ids.value {
      OneReading(paths, tree, ids.value, rs, others);
    }
  }

  lemma OneReading(paths: seq<Text>, tree: Text, ids: seq<Oid>, rs: seq<Record>, others: seq<Oid>)
    requires exists qs :: Inventory(paths, tree, qs) && Answers(paths, qs, ids)
    requires Inventory(paths, tree, rs) && Answers(paths, rs, others)
    ensures others == ids
  {
    var qs :| Inventory(paths, tree, qs) && Answers(paths, qs, ids);
    InventoryIsUnique(paths, tree, rs, qs);
    AnswersAreUnique(paths, rs, ids, others);
  }

  /** The contents of objects, in the order asked for. */
  function Contents(store: map<Oid, seq<Byte>>, ids: seq<Oid>): seq<seq<Byte>>
    requires forall id :: id in ids ==> id in store
  {
    seq(|ids|, i requires 0 <= i < |ids| => store[ids[i]])
  }

  /**
   When git lists records that cover the paths, in whatever order, and prints the objects of a store,
   what is read is the content of each path's own object, in request order.
   */
  lemma ReadsEachPath(paths: seq<Text>, tree: Text, rs: seq<Record>, ids: seq<Oid>, store: map<Oid, seq<Byte>>,
                      blobs: seq<seq<Byte>>)
    requires Inventory(paths, tree, rs) && Answers(paths, rs, ids)
    requires (forall id :: id in ids ==> id in store) && Bounded(Contents(store, ids))
    ensures ParseAll(ids, Print(ids, Contents(store, ids))) == Some(blobs) <==>
            |blobs| == |paths| && forall i, k :: 0 <= i < |paths| && 0 <= k < |rs| && rs[k].path == paths[i] ==>
                                    rs[k].oid in store && blobs[i] == store[rs[k].oid]
  {
    PrintThenParse(ids, Contents(store, ids));
    forall i, k | 0 <= i < |paths| && 0 <= k < |rs| && rs[k].path == paths[i] ensures ids[i] == rs[k].oid {
      assert Answered(paths[i], rs, rs[k].oid);
      OneAnswer(paths[i], rs, ids[i], rs[k].oid);
    }
    if |blobs| == |paths| && forall i, k :: 0 <= i < |paths| && 0 <= k < |rs| && rs[k].path == paths[i] ==>
                               rs[k].oid in store && blobs[i] == store[rs[k].oid] {
      forall i | 0 <= i < |paths| ensures blobs[i] == Contents(store, ids)[i] {
        assert Answered(paths[i], rs, ids[i]);
      }
      assert blobs == Contents(store, ids);
    }
  }
}
