/**
 The manifest check in plain terms: how a text falls into lines, what makes a tree strange, and which trees have a
 manifest.
 */
module ManifestForm {
  import opened Wrappers
  import opened Decimal
  import opened Lexical
  import opened Splitting
  import opened TreeStream
  import opened TreeTheorems
  import opened TreeOutcome
  import opened WorkspaceManifest

  /******* Lines *******/

  /** The lines in order, each but the last with its end: a line feed, or a carriage return and a line feed. */
  function Assembled(lines: seq<Text>, windows: seq<bool>): Text
    requires |lines| == |windows| + 1
  {
    if windows == [] then lines[0]
    else lines[0] + (if windows[0] then [13, 10] else [10]) + Assembled(lines[1..], windows[1..])
  }

  /** No line holds a line feed, and a carriage return in front of a line feed belongs to the end of the line. */
  ghost predicate Separate(lines: seq<Text>, windows: seq<bool>)
    requires |lines| == |windows| + 1
  {
    && (forall i :: 0 <= i < |lines| ==> LF !in lines[i])
    && forall i :: 0 <= i < |windows| ==> !windows[i] ==> !EndsInReturn(lines[i])
  }

  predicate EndsInReturn(line: Text) {
    line != [] && line[|line| - 1] == 13
  }

  ghost predicate FallsInto(body: Text, lines: seq<Text>, windows: seq<bool>) {
    |lines| == |windows| + 1 && Separate(lines, windows) && body == Assembled(lines, windows)
  }

  lemma SeparateTail(lines: seq<Text>, windows: seq<bool>)
    requires |lines| == |windows| + 1 && windows != []
    ensures Separate(lines, windows) <==>
            && LF !in lines[0] && (!windows[0] ==> !EndsInReturn(lines[0]))
            && Separate(lines[1..], windows[1..])
  {
    if Separate(lines[1..], windows[1..]) && LF !in lines[0] && (!windows[0] ==> !EndsInReturn(lines[0])) {
      forall i | 0 <= i < |lines| ensures LF !in lines[i] {
        assert i > 0 ==> lines[i] == lines[1..][i - 1];
      }
      forall i | 0 <= i < |windows| && !windows[i] ensures !EndsInReturn(lines[i]) {
        assert i > 0 ==> lines[i] == lines[1..][i - 1] && windows[i] == windows[1..][i - 1];
      }
    }
  }

  /** Splitting off a first line that a bare line feed ends. */
  lemma {:induction false} BareLineSplitsOff(line: Text, rest: Text)
    requires LF !in line && !EndsInReturn(line)
    ensures SplitLines(line + [LF] + rest) == [line] + SplitLines(rest)
  {
    var body := line + [LF] + rest;
    if line == [] {
      assert body[1..] == rest;
    } else {
      assert |line| > 1 ==> line[1..][|line| - 2] == line[|line| - 1];
      BareLineSplitsOff(line[1..], rest);
      assert body[1..] == line[1..] + [LF] + rest;
      assert [line[0]] + line[1..] == line;
    }
  }

  lemma {:induction false} OneLine(line: Text)
    requires LF !in line
    ensures SplitLines(line) == [line]
  {
    if line != [] {
      OneLine(line[1..]);
      assert [line[0]] + line[1..] == line;
    }
  }

  lemma {:induction false} AssembledSplits(lines: seq<Text>, windows: seq<bool>)
    requires |lines| == |windows| + 1 && Separate(lines, windows)
    ensures SplitLines(Assembled(lines, windows)) == lines
  {
    assert lines == [lines[0]] + lines[1..];
    if windows == [] {
      OneLine(lines[0]);
    } else {
      SeparateTail(lines, windows);
      AssembledSplits(lines[1..], windows[1..]);
      if windows[0] {
        LineSplitsOff(lines[0], Assembled(lines[1..], windows[1..]));
      } else {
        BareLineSplitsOff(lines[0], Assembled(lines[1..], windows[1..]));
      }
    }
  }

  lemma {:induction false} SplitAssembles(body: Text) returns (windows: seq<bool>)
    ensures FallsInto(body, SplitLines(body), windows)
  {
    if body == [] {
      windows := [];
    } else if body[0] == LF {
      var rest := SplitAssembles(body[1..]);
      windows := [false] + rest;
      FirstLine([], false, body[1..], rest);
    } else if |body| >= 2 && body[0] == CR && body[1] == LF {
      var rest := SplitAssembles(body[2..]);
      windows := [true] + rest;
      FirstLine([], true, body[2..], rest);
    } else {
      windows := SplitAssembles(body[1..]);
      LongerLine(body, windows);
    }
  }

  lemma FirstLine(line: Text, window: bool, rest: Text, windows: seq<bool>)
    requires FallsInto(rest, SplitLines(rest), windows) && line == []
    ensures FallsInto(line + (if window then [13, 10] else [10]) + rest, [line] + SplitLines(rest), [window] + windows)
  {
    var lines := [line] + SplitLines(rest);
    assert lines[1..] == SplitLines(rest) && ([window] + windows)[1..] == windows;
    SeparateTail(lines, [window] + windows);
  }

  lemma LongerLine(body: Text, windows: seq<bool>)
    requires body != [] && body[0] != LF && !(|body| >= 2 && body[0] == CR && body[1] == LF)
    requires FallsInto(body[1..], SplitLines(body[1..]), windows)
    ensures FallsInto(body, SplitLines(body), windows)
  {
    var rest := SplitLines(body[1..]);
    if windows != [] && !windows[0] && rest[0] == [] {
      assert body[1..][0] == LF;
    }
    LongerFirst(body[0], body[1..], rest, windows);
    assert body == [body[0]] + body[1..];
  }

  /** The first line with one more unit in front. */
  function Longer(u: Unit, lines: seq<Text>): (r: seq<Text>)
    requires lines != []
    ensures |r| == |lines| && r[0] == [u] + lines[0] && r[1..] == lines[1..]
  {
    [[u] + lines[0]] + lines[1..]
  }

  lemma LongerFirst(u: Unit, rest: Text, lines: seq<Text>, windows: seq<bool>)
    requires FallsInto(rest, lines, windows) && u != LF
    requires windows != [] && !windows[0] && lines[0] == [] ==> u != CR
    ensures FallsInto([u] + rest, Longer(u, lines), windows)
  {
    var longer := Longer(u, lines);
    assert LF !in lines[0];
    if windows == [] {
      assert Separate(longer, windows);
    } else {
      SeparateTail(lines, windows);
      LongerEnd(u, lines[0]);
      SeparateTail(longer, windows);
      AssembledLonger(u, lines, windows);
    }
  }

  lemma LongerEnd(u: Unit, line: Text)
    ensures EndsInReturn([u] + line) <==> if line == [] then u == CR else EndsInReturn(line)
  {
  }

  lemma AssembledLonger(u: Unit, lines: seq<Text>, windows: seq<bool>)
    requires |lines| == |windows| + 1
    ensures Assembled(Longer(u, lines), windows) == [u] + Assembled(lines, windows)
  {
    if windows != [] {
      var end: Text := if windows[0] then [13, 10] else [10];
      assert [u] + lines[0] + end + Assembled(lines[1..], windows[1..]) ==
             [u] + (lines[0] + end + Assembled(lines[1..], windows[1..]));
    }
  }

  /** A text falls into lines in exactly one way. */
  lemma SplitLinesIff(body: Text, lines: seq<Text>)
    ensures SplitLines(body) == lines <==> exists windows :: FallsInto(body, lines, windows)
  {
    if SplitLines(body) == lines {
      var windows := SplitAssembles(body);
    }
    if windows :| FallsInto(body, lines, windows) {
      AssembledSplits(lines, windows);
    }
  }

  /** The lines that are checked: all of them, but for an empty last one. */
  lemma ManifestLinesIff(body: Text, lines: seq<Text>)
    ensures ManifestLines(body) == lines <==>
            || (exists windows :: FallsInto(body, lines + [[]], windows))
            || (lines != [] && lines[|lines| - 1] != [] && exists windows :: FallsInto(body, lines, windows))
  {
    var all := SplitLines(body);
    SplitLinesIff(body, lines + [[]]);
    SplitLinesIff(body, lines);
    assert all == all[..|all| - 1] + [all[|all| - 1]];
    assert (lines + [[]])[..|lines|] == lines;
  }

  const HEXADECIMAL: seq<Unit> := [48, 49, 50, 51, 52, 53, 54, 55, 56, 57, 97, 98, 99, 100, 101, 102]

  /** A digest is sixty-four digits or letters from a to f. */
  lemma HashTextIff(t: Text)
    ensures HashText(t) <==> |t| == 64 && forall u :: u in t ==> u in HEXADECIMAL
  {
    forall u: Unit ensures u in HEXADECIMAL <==> 48 <= u <= 57 || 97 <= u <= 102 {
    }
    assert forall i :: 0 <= i < |t| ==> t[i] in t;
  }

  /******* Paths *******/

  /** Names that a path may have between its slashes. */
  ghost predicate Names(path: Path) {
    && path != [] && path != [[46]]
    && forall i :: 0 <= i < |path| ==> path[i] != [] && path[i] != [46, 46] && 47 !in path[i]
  }

  lemma {:induction false} EndedIsSlashed(path: Path)
    requires path != []
    ensures Ended(path, SLASH) == Slashed(path) + [SLASH]
  {
    JoinedIsSlashed(path);
    if |path| == 1 {
      assert path[1..] == [];
    } else {
      EndedIsSlashed(path[1..]);
      JoinedIsSlashed(path[1..]);
      assert path[0] + [SLASH] + (Joined(path[1..]) + [SLASH]) == path[0] + [SLASH] + Joined(path[1..]) + [SLASH];
    }
  }

  lemma PartsOfSlashed(path: Path)
    requires path != [] && forall i :: 0 <= i < |path| ==> 47 !in path[i]
    ensures Parts(Slashed(path)) == path
  {
    EndedIsSlashed(path);
    forall name | name in path ensures SLASH !in name {
    }
    SplitEnded(path, SLASH);
    var ended := Slashed(path) + [SLASH];
    assert ended[..|ended| - 1] == Slashed(path);
  }

  lemma SlashedParts(t: Text)
    ensures Slashed(Parts(t)) == t
    ensures forall i :: 0 <= i < |Parts(t)| ==> 47 !in Parts(t)[i]
  {
    EndedSplit(t, SLASH);
    EndedIsSlashed(Parts(t));
    PartsAreWhole(t, SLASH);
    assert Slashed(Parts(t)) == (Slashed(Parts(t)) + [SLASH])[..|t|] == t;
  }

  /**
   The path of a line is safe exactly when it is such names with slashes between them, and not the manifest's own:
   that rules out absolute paths, empty components and the parent directory.
   */
  lemma SafePathIff(layout: Layout, t: Text)
    ensures SafePath(layout, t) <==> t != layout.manifest && exists path :: Names(path) && t == Slashed(path)
  {
    SlashedParts(t);
    if SafePath(layout, t) {
      assert |Parts(t)| == 1 ==> Slashed(Parts(t)) == Parts(t)[0];
      assert Names(Parts(t));
    }
    if path :| Names(path) && t == Slashed(path) {
      PartsOfSlashed(path);
      assert path[0] in path;
      NotRooted(t, path);
    }
  }

  lemma NotRooted(t: Text, path: Path)
    requires Names(path) && Parts(t) == path && t == Slashed(path)
    ensures t != [] && t[0] != SLASH && t != [DOT]
  {
    if t == [DOT] {
      SplitLastPart([DOT], SLASH);
    }
    if t != [] && t[0] == SLASH {
      RootedSplits(t);
    }
  }

  lemma RootedSplits(t: Text)
    requires t != [] && t[0] == SLASH
    ensures Parts(t)[0] == []
  {
  }

  /******* Strange entries *******/

  /** The walk gets to this path: below an allowed name, through no cache. */
  ghost predicate Reached(layout: Layout, p: Path) {
    p != [] && p[0] in layout.allowed && forall i :: 0 <= i < |p| - 1 ==> p[i] !in layout.caches
  }

  ghost predicate NothingStrange(layout: Layout, entries: seq<Entry<Node>>) {
    forall p :: Reached(layout, p) ==> NodeAt(Dir(entries), p) != Some(Other)
  }

  lemma {:induction false} PlainWayDown(caches: set<Text>, name: Text, node: Node, p: Path)
    requires Listing(node) && Plain(caches, name, node) && Uncached(caches, [name] + p)
    ensures NodeAt(node, p) != Some(Other)
    decreases node
  {
    if p != [] && node.Dir? && exists e :: e in node.entries && e.key == p[0] {
      var e :| e in node.entries && e.key == p[0] && NodeAt(node, p) == NodeAt(e.value, p[1..]);
      UncachedStep(caches, [name] + p);
      assert ([name] + p)[1..] == p == [e.key] + p[1..];
      PlainWayDown(caches, e.key, e.value, p[1..]);
    }
  }

  lemma {:induction false} StrangeWayDown(caches: set<Text>, name: Text, node: Node) returns (p: Path)
    requires Listing(node) && !Plain(caches, name, node)
    ensures Uncached(caches, [name] + p) && NodeAt(node, p) == Some(Other)
    decreases node
  {
    match node
    case Other =>
      p := [];
    case Dir(entries) =>
      var e :| e in entries && !Plain(caches, e.key, e.value);
      var below := StrangeWayDown(caches, e.key, e.value);
      StepInto(entries, e, below);
      p := [e.key] + below;
      assert ([name] + p)[1..] == p;
      UncachedStep(caches, [name] + p);
  }

  lemma PlainIff(layout: Layout, entries: seq<Entry<Node>>)
    requires Listing(Dir(entries))
    ensures TopPlain(layout, entries) <==> NothingStrange(layout, entries)
  {
    if TopPlain(layout, entries) {
      forall p | Reached(layout, p) ensures NodeAt(Dir(entries), p) != Some(Other) {
        if e :| e in entries && e.key == p[0] {
          assert p == [e.key] + p[1..];
          StepInto(entries, e, p[1..]);
          PlainWayDown(layout.caches, e.key, e.value, p[1..]);
        }
      }
    } else {
      var e :| e in entries && e.key in layout.allowed && !Plain(layout.caches, e.key, e.value);
      var below := StrangeWayDown(layout.caches, e.key, e.value);
      StepInto(entries, e, below);
      assert Reached(layout, [e.key] + below);
    }
  }

  /******* Which trees have a manifest *******/

  /** A file that the manifest has to list: reached by the walk, and not the manifest itself. */
  ghost predicate ToList(layout: Layout, entries: seq<Entry<Node>>, p: Path) {
    Reached(layout, p) && Lookup(Dir(entries), p).Some? && Slashed(p) != layout.manifest
  }

  lemma ToListIff(layout: Layout, entries: seq<Entry<Node>>, p: Path)
    ensures ToList(layout, entries, p) <==> Owned(layout, entries, p) && Joined(p) != layout.manifest
  {
    JoinedIsSlashed(p);
  }

  /**
   Some text passes the check exactly when the walk meets nothing strange and at least one file to list, and no
   path to list holds a backslash or a line feed.
   */
  lemma SomeManifestIff(layout: Layout, entries: seq<Entry<Node>>, hash: Hash)
    requires Listing(Dir(entries))
    ensures (exists body :: Describes(layout, entries, hash, ManifestLines(body))) <==>
            && NothingStrange(layout, entries)
            && (exists p :: ToList(layout, entries, p))
            && forall p :: ToList(layout, entries, p) ==> 92 !in Slashed(p) && 10 !in Slashed(p)
  {
    ManifestExistsIff(layout, entries, hash);
    PlainIff(layout, entries);
    forall p ensures ToList(layout, entries, p) <==> Owned(layout, entries, p) && Joined(p) != layout.manifest {
      ToListIff(layout, entries, p);
    }
    forall t
      ensures t in TopTexts(layout, entries) <==>
              t != layout.manifest && exists p :: Owned(layout, entries, p) && Joined(p) == t
    {
      CollectedIff(layout, entries, t);
    }
    forall p ensures Joined(p) == Slashed(p) {
      JoinedIsSlashed(p);
    }
    if p :| ToList(layout, entries, p) {
      assert Joined(p) in TopTexts(layout, entries);
    }
    forall p | ToList(layout, entries, p) ensures Joined(p) in TopTexts(layout, entries) {
    }
    if TopTexts(layout, entries) != {} {
      var t :| t in TopTexts(layout, entries);
      var p :| Owned(layout, entries, p) && Joined(p) == t;
      assert ToList(layout, entries, p);
    }
  }
}
