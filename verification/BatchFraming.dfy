/**
 Reading committed blobs from `git cat-file --batch` (scripts/r-ext-go-qualification/preflight.ts):
 the frame parser and the framing it inverts.
 */
module BatchFraming {
  import opened Wrappers
  import opened Decimal

  const BLOB_LIMIT := 2 * 1024 * 1024
  const NEWLINE: Byte := 10

  /** " blob " */
  const BLOB_WORD: seq<Byte> := [32, 98, 108, 111, 98, 32]

  predicate IsOid(id: seq<Byte>) {
    |id| == 40 && forall i :: 0 <= i < 40 ==> DigitByte(id[i]) || 97 <= id[i] < 103
  }

  type Oid = id: seq<Byte> | IsOid(id) witness seq(40, _ => 48)

  /******* What git prints *******/

  /** The object id, " blob " and the size. */
  function Header(id: Oid, size: nat): seq<Byte> {
    id + [32, 98, 108, 111, 98, 32] + Dec(size)
  }

  function Frame(id: Oid, blob: seq<Byte>): seq<Byte> {
    Header(id, |blob|) + [10] + blob + [10]
  }

  function Print(ids: seq<Oid>, blobs: seq<seq<Byte>>): seq<Byte>
    requires |ids| == |blobs|
  {
    if ids == [] then [] else Frame(ids[0], blobs[0]) + Print(ids[1..], blobs[1..])
  }

  predicate Bounded(blobs: seq<seq<Byte>>) {
    forall i :: 0 <= i < |blobs| ==> |blobs[i]| <= 2_097_152
  }

  /******* The parser's decisions *******/

  /** The first newline at or after an offset, or the end of the bytes. */
  function NewlineFrom(t: seq<Byte>, offset: nat): (i: nat)
    requires offset <= |t|
    ensures offset <= i <= |t|
    ensures i < |t| ==> t[i] == NEWLINE
    ensures forall j :: offset <= j < i ==> t[j] != NEWLINE
    decreases |t| - offset
  {
    if offset == |t| || t[offset] == NEWLINE then offset else NewlineFrom(t, offset + 1)
  }

  /** The size a header line announces for the expected object. */
  function HeaderSize(line: seq<Byte>, id: Oid): Option<nat> {
    if |line| > 46 && line[..40] == id && line[40..46] == BLOB_WORD && IsNumeral(line[46..])
    then Some(NumeralValue(line[46..]))
    else None
  }

  datatype Parsed = Parsed(blob: seq<Byte>, rest: seq<Byte>)

  /** One frame from the front of the bytes. */
  function ParseFrame(id: Oid, t: seq<Byte>): Option<Parsed> {
    var headerEnd := NewlineFrom(t, 0);
    if headerEnd == |t| then None
    else match HeaderSize(t[..headerEnd], id)
      case None => None
      case Some(size) =>
        var end := headerEnd + 1 + size;
        if size > BLOB_LIMIT || end >= |t| || t[end] != NEWLINE then None
        else Some(Parsed(t[headerEnd + 1..end], t[end + 1..]))
  }

  function ParseAll(ids: seq<Oid>, t: seq<Byte>): Option<seq<seq<Byte>>> {
    if ids == [] then if t == [] then Some([]) else None
    else match ParseFrame(ids[0], t)
      case None => None
      case Some(Parsed(blob, rest)) =>
        (match ParseAll(ids[1..], rest)
         case None => None
         case Some(blobs) => Some([blob] + blobs))
  }

  /******* The source's loop *******/

  datatype Located = Located(blob: seq<Byte>, next: nat)

  /** The frame at an offset of the batch, and the offset after it. */
  function FrameFrom(id: Oid, batch: seq<Byte>, offset: nat): (r: Option<Located>)
    requires offset <= |batch|
    ensures r.Some? ==> offset < r.value.next <= |batch|
  {
    var headerEnd := NewlineFrom(batch, offset);
    if headerEnd == |batch| then None
    else match HeaderSize(batch[offset..headerEnd], id)
      case None => None
      case Some(size) =>
        var end := headerEnd + 1 + size;
        if size > BLOB_LIMIT || end >= |batch| || batch[end] != NEWLINE then None
        else Some(Located(batch[headerEnd + 1..end], end + 1))
  }

  function ParseFrom(ids: seq<Oid>, k: nat, batch: seq<Byte>, offset: nat): Option<seq<seq<Byte>>>
    requires k <= |ids| && offset <= |batch|
    decreases |ids| - k
  {
    if k == |ids| then if offset == |batch| then Some([]) else None
    else match FrameFrom(ids[k], batch, offset)
      case None => None
      case Some(Located(blob, next)) =>
        (match ParseFrom(ids, k + 1, batch, next)
         case None => None
         case Some(blobs) => Some([blob] + blobs))
  }

  method ReadFrame(id: Oid, batch: seq<Byte>, offset: nat) returns (r: Option<Located>)
    requires offset <= |batch|
    ensures r == FrameFrom(id, batch, offset)
  {
    var headerEnd := NewlineFrom(batch, offset);
    if headerEnd == |batch| {
      return None;
    }
    var header := HeaderSize(batch[offset..headerEnd], id);
    if header.None? {
      return None;
    }
    var size := header.value;
    if size > BLOB_LIMIT {
      return None;
    }
    var start := headerEnd + 1;
    var end := start + size;
    if end >= |batch| || batch[end] != NEWLINE {
      return None;
    }
    return Some(Located(batch[start..end], end + 1));
  }

  method ParseBatch(ids: seq<Oid>, batch: seq<Byte>) returns (r: Option<seq<seq<Byte>>>)
    ensures r == ParseAll(ids, batch)
  {
    var results: seq<seq<Byte>> := [];
    var offset: nat := 0;
    PrependNothing(ParseFrom(ids, 0, batch, 0));
    for k := 0 to |ids|
      invariant offset <= |batch|
      invariant ParseFrom(ids, 0, batch, 0) == Prepend(results, ParseFrom(ids, k, batch, offset))
    {
      var frame := ReadFrame(ids[k], batch, offset);
      if frame.None? {
        ParseFromStart(ids, batch);
        return None;
      }
      PrependStep(results, frame.value.blob, ParseFrom(ids, k + 1, batch, frame.value.next));
      results := results + [frame.value.blob];
      offset := frame.value.next;
    }
    ParseFromStart(ids, batch);
    if offset != |batch| {
      return None;
    }
    assert results + [] == results;
    return Some(results);
  }

  function Prepend(done: seq<seq<Byte>>, rest: Option<seq<seq<Byte>>>): Option<seq<seq<Byte>>> {
    match rest
    case None => None
    case Some(blobs) => Some(done + blobs)
  }

  lemma PrependNothing(rest: Option<seq<seq<Byte>>>)
    ensures Prepend([], rest) == rest
  {
    if rest.Some? {
      assert [] + rest.value == rest.value;
    }
  }

  lemma PrependStep(done: seq<seq<Byte>>, blob: seq<Byte>, rest: Option<seq<seq<Byte>>>)
    ensures Prepend(done, Prepend([blob], rest)) == Prepend(done + [blob], rest)
  {
    if rest.Some? {
      assert done + ([blob] + rest.value) == done + [blob] + rest.value;
    }
  }

  lemma NewlineShift(t: seq<Byte>, offset: nat)
    requires offset <= |t|
    ensures NewlineFrom(t, offset) == offset + NewlineFrom(t[offset..], 0)
  {
    var j := NewlineFrom(t[offset..], 0);
    assert forall k :: 0 <= k < |t| - offset ==> t[offset..][k] == t[offset + k];
    forall k | offset <= k < offset + j ensures t[k] != NEWLINE {
      assert t[offset..][k - offset] == t[k];
    }
  }

  /** Reading at an offset is parsing what starts there. */
  lemma FrameAt(id: Oid, batch: seq<Byte>, offset: nat)
    requires offset <= |batch|
    ensures ParseFrame(id, batch[offset..]) ==
            match FrameFrom(id, batch, offset)
            case None => None
            case Some(Located(blob, next)) => Some(Parsed(blob, batch[next..]))
  {
    var t, headerEnd := batch[offset..], NewlineFrom(batch, offset);
    NewlineShift(batch, offset);
    assert t[..headerEnd - offset] == batch[offset..headerEnd];
    if headerEnd < |batch| && HeaderSize(batch[offset..headerEnd], id).Some? {
      var end := headerEnd + 1 + HeaderSize(batch[offset..headerEnd], id).value;
      if end < |batch| {
        assert t[end - offset] == batch[end];
        assert t[headerEnd - offset + 1..end - offset] == batch[headerEnd + 1..end];
        assert t[end - offset + 1..] == batch[end + 1..];
      }
    }
  }

  lemma {:induction false} ParseFromIsParseAll(ids: seq<Oid>, k: nat, batch: seq<Byte>, offset: nat)
    requires k <= |ids| && offset <= |batch|
    ensures ParseFrom(ids, k, batch, offset) == ParseAll(ids[k..], batch[offset..])
    decreases |ids| - k
  {
    if k < |ids| {
      FrameAt(ids[k], batch, offset);
      assert ids[k..][0] == ids[k] && ids[k..][1..] == ids[k + 1..];
      match FrameFrom(ids[k], batch, offset)
      case None =>
      case Some(Located(blob, next)) =>
        ParseFromIsParseAll(ids, k + 1, batch, next);
    }
  }

  lemma ParseFromStart(ids: seq<Oid>, batch: seq<Byte>)
    ensures ParseFrom(ids, 0, batch, 0) == ParseAll(ids, batch)
  {
    ParseFromIsParseAll(ids, 0, batch, 0);
    assert ids[0..] == ids && batch[0..] == batch;
  }

  /******* The parser inverts the framing *******/

  lemma HeaderRoundTrip(id: Oid, size: nat)
    ensures HeaderSize(Header(id, size), id) == Some(size)
    ensures forall i :: 0 <= i < |Header(id, size)| ==> Header(id, size)[i] != NEWLINE
  {
    var line := Header(id, size);
    DecIsNumeral(size);
    assert line[..40] == id && line[40..46] == BLOB_WORD && line[46..] == Dec(size);
  }

  lemma HeaderIsPrinted(line: seq<Byte>, id: Oid)
    requires HeaderSize(line, id).Some?
    ensures line == Header(id, HeaderSize(line, id).value)
  {
    NumeralIsDec(line[46..]);
    assert line == line[..40] + line[40..46] + line[46..];
  }

  /** A printed frame parses to its blob, whatever the blob contains and whatever follows. */
  lemma FrameParses(id: Oid, blob: seq<Byte>, rest: seq<Byte>)
    requires |blob| <= BLOB_LIMIT
    ensures ParseFrame(id, Frame(id, blob) + rest) == Some(Parsed(blob, rest))
  {
    var h := Header(id, |blob|);
    var t := h + [10] + blob + [10] + rest;
    HeaderRoundTrip(id, |blob|);
    FrameParts(h, blob, rest);
    HeaderEnds(h, t);
    assert Frame(id, blob) + rest == t;
  }

  lemma FrameParts(h: seq<Byte>, blob: seq<Byte>, rest: seq<Byte>)
    ensures var t, end := h + [10] + blob + [10] + rest, |h| + 1 + |blob|;
            && |t| > end && t[..|h|] == h && t[|h|] == 10 && t[|h| + 1..end] == blob && t[end] == 10 && t[end + 1..] == rest
  {
  }

  lemma HeaderEnds(h: seq<Byte>, t: seq<Byte>)
    requires |h| < |t| && t[..|h|] == h && t[|h|] == NEWLINE && forall i :: 0 <= i < |h| ==> h[i] != NEWLINE
    ensures NewlineFrom(t, 0) == |h|
  {
    assert forall j :: 0 <= j < |h| ==> t[j] == h[j];
  }

  /** Only a printed frame of a bounded blob parses. */
  lemma ParsedFrameIsPrinted(id: Oid, t: seq<Byte>)
    requires ParseFrame(id, t).Some?
    ensures var Parsed(blob, rest) := ParseFrame(id, t).value;
            t == Frame(id, blob) + rest && |blob| <= BLOB_LIMIT
  {
    var headerEnd := NewlineFrom(t, 0);
    var line := t[..headerEnd];
    HeaderIsPrinted(line, id);
    var end := headerEnd + 1 + HeaderSize(line, id).value;
    FiveParts(t, headerEnd, end);
  }

  lemma FiveParts(t: seq<Byte>, i: nat, k: nat)
    requires i < k < |t|
    ensures t == t[..i] + [t[i]] + t[i + 1..k] + [t[k]] + t[k + 1..]
  {
  }

  /** Printing any bounded blobs and parsing gives them back. */
  lemma {:induction false} PrintThenParse(ids: seq<Oid>, blobs: seq<seq<Byte>>)
    requires |ids| == |blobs| && Bounded(blobs)
    ensures ParseAll(ids, Print(ids, blobs)) == Some(blobs)
  {
    if ids != [] {
      FrameParses(ids[0], blobs[0], Print(ids[1..], blobs[1..]));
      PrintThenParse(ids[1..], blobs[1..]);
      assert [blobs[0]] + blobs[1..] == blobs;
    }
  }

  /** Accepted bytes are the print of the result, with nothing left over. */
  lemma {:induction false} ParseThenPrint(ids: seq<Oid>, batch: seq<Byte>)
    requires ParseAll(ids, batch).Some?
    ensures var blobs := ParseAll(ids, batch).value;
            |blobs| == |ids| && Bounded(blobs) && Print(ids, blobs) == batch
  {
    if ids != [] {
      var Parsed(blob, rest) := ParseFrame(ids[0], batch).value;
      ParsedFrameIsPrinted(ids[0], batch);
      ParseThenPrint(ids[1..], rest);
      var blobs := ParseAll(ids, batch).value;
      assert blobs[1..] == ParseAll(ids[1..], rest).value;
    }
  }

  /** The parser accepts exactly the prints of bounded blobs, and recovers them. */
  lemma ParsesIffPrinted(ids: seq<Oid>, batch: seq<Byte>, blobs: seq<seq<Byte>>)
    ensures ParseAll(ids, batch) == Some(blobs) <==>
            |blobs| == |ids| && Bounded(blobs) && batch == Print(ids, blobs)
  {
    if ParseAll(ids, batch) == Some(blobs) {
      ParseThenPrint(ids, batch);
    }
    if |blobs| == |ids| && Bounded(blobs) && batch == Print(ids, blobs) {
      PrintThenParse(ids, blobs);
    }
  }
}
