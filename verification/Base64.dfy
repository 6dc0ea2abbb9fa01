/**
 Base64 as the scripts check and forge it: the exact check of scripts/documentation/task-claim-c0.ts
 and the non-canonical tail of scripts/organization-graph-contracts/index.ts.  Sections 3.5, 4 and 5
 of RFC 4648.
 */
module Base64 {
  import opened Wrappers
  import opened Decimal

  const MAX_BYTES := 4 * 1024 * 1024

  type Sextet = s: int | 0 <= s < 64

  /******* Symbols *******/

  /** The two alphabets differ in their last two symbols. */
  datatype Alphabet = Standard | UrlSafe

  function Symbol(alphabet: Alphabet, s: Sextet): char {
    if s < 26 then 'A' + s as char
    else if s < 52 then 'a' + (s - 26) as char
    else if s < 62 then '0' + (s - 52) as char
    else if s == 62 then if alphabet == Standard then '+' else '-'
    else if alphabet == Standard then '/' else '_'
  }

  function IndexOf(alphabet: Alphabet, c: char): Option<Sextet> {
    if 'A' <= c <= 'Z' then Some((c - 'A') as int)
    else if 'a' <= c <= 'z' then Some((c - 'a') as int + 26)
    else if '0' <= c <= '9' then Some((c - '0') as int + 52)
    else if c == (if alphabet == Standard then '+' else '-') then Some(62)
    else if c == (if alphabet == Standard then '/' else '_') then Some(63)
    else None
  }

  lemma SymbolsAndIndices(alphabet: Alphabet, s: Sextet, c: char)
    ensures IndexOf(alphabet, c) == Some(s) <==> c == Symbol(alphabet, s)
  {
  }

  function Symbols(alphabet: Alphabet, ss: seq<Sextet>): string {
    seq(|ss|, i requires 0 <= i < |ss| => Symbol(alphabet, ss[i]))
  }

  predicate AllSymbols(alphabet: Alphabet, text: string) {
    forall i :: 0 <= i < |text| ==> IndexOf(alphabet, text[i]).Some?
  }

  function Indices(alphabet: Alphabet, text: string): seq<Sextet>
    requires AllSymbols(alphabet, text)
  {
    seq(|text|, i requires 0 <= i < |text| => IndexOf(alphabet, text[i]).value)
  }

  lemma IndicesOfSymbols(alphabet: Alphabet, ss: seq<Sextet>)
    ensures AllSymbols(alphabet, Symbols(alphabet, ss)) && Indices(alphabet, Symbols(alphabet, ss)) == ss
  {
    forall i | 0 <= i < |ss| ensures IndexOf(alphabet, Symbols(alphabet, ss)[i]) == Some(ss[i]) {
      SymbolsAndIndices(alphabet, ss[i], Symbol(alphabet, ss[i]));
    }
  }

  /******* Bytes and sextets *******/

  /** Three bytes as four sextets. */
  function ToFour(x: Byte, y: Byte, z: Byte): seq<Sextet> {
    [x / 4, x % 4 * 16 + y / 16, y % 16 * 4 + z / 64, z % 64]
  }

  /** Four sextets as three bytes. */
  function ToThree(p: int, q: int, r: int, t: int): seq<Byte>
    requires 0 <= p < 64 && 0 <= q < 64 && 0 <= r < 64 && 0 <= t < 64
  {
    [p * 4 + q / 16, q % 16 * 16 + r / 4, r % 4 * 64 + t]
  }

  function Sextets(b: seq<Byte>): seq<Sextet> {
    if |b| == 0 then []
    else if |b| == 1 then ToFour(b[0], 0, 0)[..2]
    else if |b| == 2 then ToFour(b[0], b[1], 0)[..3]
    else ToFour(b[0], b[1], b[2]) + Sextets(b[3..])
  }

  /** The decoder of the platform: unused bits at the end are ignored, and so is a single last sextet. */
  function Bytes(ss: seq<Sextet>): seq<Byte> {
    if |ss| <= 1 then []
    else if |ss| == 2 then ToThree(ss[0], ss[1], 0, 0)[..1]
    else if |ss| == 3 then ToThree(ss[0], ss[1], ss[2], 0)[..2]
    else ToThree(ss[0], ss[1], ss[2], ss[3]) + Bytes(ss[4..])
  }

  lemma ThreeOfFour(x: Byte, y: Byte, z: Byte)
    ensures var f := ToFour(x, y, z); ToThree(f[0], f[1], f[2], f[3]) == [x, y, z]
  {
  }

  lemma FourOfThree(p: int, q: int, r: int, t: int)
    requires 0 <= p < 64 && 0 <= q < 64 && 0 <= r < 64 && 0 <= t < 64
    ensures var b := ToThree(p, q, r, t); ToFour(b[0], b[1], b[2]) == [p, q, r, t]
  {
    FourOfParts(p, q / 16, q % 16, r / 4, r % 4, t);
  }

  /** The same with the two middle sextets already cut where the bytes are. */
  lemma FourOfParts(p: nat, q1: nat, q2: nat, r1: nat, r2: nat, t: nat)
    requires p < 64 && q1 < 4 && q2 < 16 && r1 < 16 && r2 < 4 && t < 64
    ensures ToFour(p * 4 + q1, q2 * 16 + r1, r2 * 64 + t) == [p, q1 * 16 + q2, r1 * 4 + r2, t]
  {
    SplitBy4(p, q1);
    SplitBy16(q2, r1);
    SplitBy64(r2, t);
  }

  lemma SplitBy4(high: nat, low: nat)
    requires low < 4
    ensures (high * 4 + low) / 4 == high && (high * 4 + low) % 4 == low
  {
  }

  lemma SplitBy16(high: nat, low: nat)
    requires low < 16
    ensures (high * 16 + low) / 16 == high && (high * 16 + low) % 16 == low
  {
  }

  lemma SplitBy64(high: nat, low: nat)
    requires low < 64
    ensures (high * 64 + low) / 64 == high && (high * 64 + low) % 64 == low
  {
  }

  lemma {:induction false} BytesOfSextets(b: seq<Byte>)
    ensures Bytes(Sextets(b)) == b
  {
    if |b| == 1 {
      ThreeOfFour(b[0], 0, 0);
      assert ToThree(Sextets(b)[0], Sextets(b)[1], 0, 0)[..1] == [b[0]] == b;
    } else if |b| == 2 {
      ThreeOfFour(b[0], b[1], 0);
      assert ToThree(Sextets(b)[0], Sextets(b)[1], Sextets(b)[2], 0)[..2] == [b[0], b[1]] == b;
    } else if |b| >= 3 {
      BytesOfSextets(b[3..]);
      ThreeOfFour(b[0], b[1], b[2]);
      assert Sextets(b)[4..] == Sextets(b[3..]);
      assert b == [b[0], b[1], b[2]] + b[3..];
    }
  }

  /******* What the sextets are *******/

  function Base64Number(ss: seq<int>): int {
    if ss == [] then 0 else Base64Number(ss[..|ss| - 1]) * 64 + ss[|ss| - 1]
  }

  function Base256Number(b: seq<int>): int {
    if b == [] then 0 else Base256Number(b[..|b| - 1]) * 256 + b[|b| - 1]
  }

  lemma Numbers(w: int, x: int, y: int, z: int)
    ensures Base64Number([w]) == w
    ensures Base64Number([w, x]) == w * 64 + x && Base64Number([w, x, y]) == (w * 64 + x) * 64 + y
    ensures Base64Number([w, x, y, z]) == ((w * 64 + x) * 64 + y) * 64 + z
    ensures Base256Number([w]) == w && Base256Number([w, x]) == w * 256 + x
    ensures Base256Number([w, x, y]) == (w * 256 + x) * 256 + y
  {
    assert [w, x][..1] == [w] && [w][..0] == [] && [w, x, y][..2] == [w, x] && [w, x, y, z][..3] == [w, x, y];
  }

  /** Three bytes and their four sextets are the same number of 24 bits. */
  lemma FourIsThree(x: Byte, y: Byte, z: Byte)
    ensures var f: seq<int> := ToFour(x, y, z);
            ((f[0] * 64 + f[1]) * 64 + f[2]) * 64 + f[3] == (x * 256 + y) * 256 + z
  {
    assert x == x / 4 * 4 + x % 4 && y == y / 16 * 16 + y % 16 && z == z / 64 * 64 + z % 64;
  }

  /** Group g of sextets is the number that group g of bytes is; a short last group is filled up with zero bits. */
  ghost predicate GroupAgrees(b: seq<Byte>, ss: seq<Sextet>, g: nat)
    requires 3 * g < |b|
  {
    if 3 * g + 3 <= |b| then
      4 * g + 4 <= |ss| && Base64Number(ss[4 * g..4 * g + 4]) == Base256Number(b[3 * g..3 * g + 3])
    else if 3 * g + 2 == |b| then 4 * g + 3 == |ss| && Base64Number(ss[4 * g..]) == Base256Number(b[3 * g..]) * 4
    else 4 * g + 2 == |ss| && Base64Number(ss[4 * g..]) == Base256Number(b[3 * g..]) * 16
  }

  lemma {:induction false} GroupsAgree(b: seq<Byte>, g: nat)
    requires 3 * g < |b|
    ensures GroupAgrees(b, Sextets(b), g)
  {
    var ss := Sextets(b);
    if g > 0 {
      GroupsAgree(b[3..], g - 1);
      LaterGroup(b, g);
    } else {
      FirstGroupAgrees(b);
    }
  }

  lemma Slices<T>(s: seq<T>, from: nat, low: nat, high: nat)
    requires low <= high && from + high <= |s|
    ensures s[from..][low..] == s[from + low..] && s[from..][low..high] == s[from + low..from + high]
  {
  }

  lemma LaterGroup(b: seq<Byte>, g: nat)
    requires 0 < g && 3 * g < |b| && GroupAgrees(b[3..], Sextets(b[3..]), g - 1)
    ensures GroupAgrees(b, Sextets(b), g)
  {
    SextetsBehind(b[..3], b[3..]);
    assert b == b[..3] + b[3..];
    AgreesBehind(b, Sextets(b), g);
  }

  lemma AgreesBehind(b: seq<Byte>, ss: seq<Sextet>, g: nat)
    requires 0 < g && 3 * g < |b| && |ss| >= 4 && GroupAgrees(b[3..], ss[4..], g - 1)
    ensures GroupAgrees(b, ss, g)
  {
    if 3 * g + 3 <= |b| {
      Slices(b, 3, 3 * g - 3, 3 * g);
      Slices(ss, 4, 4 * g - 4, 4 * g);
    } else {
      Slices(b, 3, 3 * g - 3, |b| - 3);
      Slices(ss, 4, 4 * g - 4, |ss| - 4);
    }
  }

  lemma FirstGroupAgrees(b: seq<Byte>)
    requires b != []
    ensures GroupAgrees(b, Sextets(b), 0)
  {
    var x: int, y: int, z: int := b[0], if |b| > 1 then b[1] else 0, if |b| > 2 then b[2] else 0;
    var f := ToFour(x, y, z);
    FourIsThree(x, y, z);
    Numbers(f[0], f[1], f[2], f[3]);
    Numbers(x, y, z, 0);
    if |b| == 1 {
      assert Sextets(b) == [f[0], f[1]] && b == [x];
    } else if |b| == 2 {
      assert Sextets(b) == [f[0], f[1], f[2]] && b == [x, y];
    } else {
      assert Sextets(b)[0..4] == [f[0], f[1], f[2], f[3]] && b[0..3] == [x, y, z];
    }
  }

  /** The alphabets: letters, small letters and digits in their own order, and two symbols more. */
  lemma AlphabetOrder(alphabet: Alphabet, s: Sextet)
    ensures Symbol(alphabet, 0) == 'A' && Symbol(alphabet, 25) == 'Z' && Symbol(alphabet, 26) == 'a'
    ensures Symbol(alphabet, 51) == 'z' && Symbol(alphabet, 52) == '0' && Symbol(alphabet, 61) == '9'
    ensures [Symbol(alphabet, 62), Symbol(alphabet, 63)] == if alphabet == Standard then "+/" else "-_"
    ensures 0 < s < 62 && s != 26 && s != 52 ==> Symbol(alphabet, s) as int == Symbol(alphabet, s - 1) as int + 1
  {
  }

  /** The bits of the last sextet that carry no data. */
  function UnusedBits(ss: seq<Sextet>): nat
    requires |ss| % 4 == 2 || |ss| % 4 == 3
  {
    if |ss| % 4 == 2 then ss[|ss| - 1] % 16 else ss[|ss| - 1] % 4
  }

  predicate CanonicalEnd(ss: seq<Sextet>) {
    |ss| % 4 != 1 && (|ss| % 4 != 0 ==> UnusedBits(ss) == 0)
  }

  /** Re-encoding gives the sextets back exactly when they end canonically. */
  lemma {:induction false} SextetsOfBytesIff(ss: seq<Sextet>)
    ensures Sextets(Bytes(ss)) == ss <==> CanonicalEnd(ss)
  {
    if |ss| == 2 {
      TwoSextets(ss);
    } else if |ss| == 3 {
      ThreeSextets(ss[0], ss[1], ss[2]);
      assert ss == [ss[0], ss[1], ss[2]];
    } else if |ss| >= 4 {
      SextetsOfBytesIff(ss[4..]);
      FirstGroup(ss);
      EndBehind(ss);
    }
  }

  lemma EndBehind(ss: seq<Sextet>)
    requires |ss| >= 4
    ensures CanonicalEnd(ss[4..]) == CanonicalEnd(ss)
  {
    if |ss| % 4 != 0 {
      assert ss[4..][|ss| - 5] == ss[|ss| - 1];
    }
  }

  /** A whole first group survives; the rest decides. */
  lemma FirstGroup(ss: seq<Sextet>)
    requires |ss| >= 4
    ensures Sextets(Bytes(ss)) == ss <==> Sextets(Bytes(ss[4..])) == ss[4..]
  {
    var three := ToThree(ss[0], ss[1], ss[2], ss[3]);
    FourOfThree(ss[0], ss[1], ss[2], ss[3]);
    SextetsBehind(three, Bytes(ss[4..]));
    SplitAtFour(ss, Sextets(Bytes(ss[4..])));
  }

  lemma SextetsBehind(three: seq<Byte>, rest: seq<Byte>)
    requires |three| == 3
    ensures Sextets(three + rest) == ToFour(three[0], three[1], three[2]) + Sextets(rest)
  {
    assert (three + rest)[3..] == rest;
  }

  lemma {:induction false} BytesLength(ss: seq<Sextet>)
    ensures |Bytes(ss)| % 3 == (if |ss| % 4 == 2 then 1 else if |ss| % 4 == 3 then 2 else 0)
  {
    if |ss| >= 4 {
      BytesLength(ss[4..]);
    }
  }

  lemma TwoSextets(ss: seq<Sextet>)
    requires |ss| == 2
    ensures Sextets(Bytes(ss)) == ss <==> ss[1] % 16 == 0
  {
    var q: int := ss[1];
    FourOfThree(ss[0], q - q % 16, 0, 0);
    assert ToThree(ss[0], q, 0, 0)[0] == ToThree(ss[0], q - q % 16, 0, 0)[0];
    assert Sextets(Bytes(ss)) == [ss[0], q - q % 16];
  }

  lemma ThreeSextets(p: Sextet, q: Sextet, r: Sextet)
    ensures Sextets(Bytes([p, q, r])) == [p, q, r] <==> r % 4 == 0
  {
    var cut: int := r - r % 4;
    FourOfThree(p, q, cut, 0);
    CutThird(p, q, r);
    var two := ToThree(p, q, cut, 0)[..2];
    assert Bytes([p, q, r]) == two;
    TwoBytes(two);
  }

  lemma CutThird(p: Sextet, q: Sextet, r: Sextet)
    ensures ToThree(p, q, r, 0)[..2] == ToThree(p, q, r - r % 4, 0)[..2]
  {
    assert r / 4 == (r - r % 4) / 4;
  }

  lemma TwoBytes(two: seq<Byte>)
    requires |two| == 2
    ensures Sextets(two) == ToFour(two[0], two[1], 0)[..3]
  {
  }

  lemma SplitAtFour(ss: seq<Sextet>, rest: seq<Sextet>)
    requires |ss| >= 4
    ensures [ss[0], ss[1], ss[2], ss[3]] + rest == ss <==> rest == ss[4..]
  {
    var whole := [ss[0], ss[1], ss[2], ss[3]] + rest;
    assert whole[4..] == rest;
    assert ss == [ss[0], ss[1], ss[2], ss[3]] + ss[4..];
  }

  /******* The exact check *******/

  function Padding(count: nat): string {
    if count % 3 == 1 then "==" else if count % 3 == 2 then "=" else ""
  }

  /** The canonical padded encoding. */
  function Encode(b: seq<Byte>): string {
    Symbols(Standard, Sextets(b)) + Padding(|b|)
  }

  function PaddingLength(text: string): nat {
    if |text| >= 2 && text[|text| - 1] == '=' && text[|text| - 2] == '=' then 2
    else if |text| >= 1 && text[|text| - 1] == '=' then 1
    else 0
  }

  /** Groups of four symbols, the last one possibly padded. */
  predicate Shaped(text: string) {
    |text| % 4 == 0 && AllSymbols(Standard, text[..|text| - PaddingLength(text)])
  }

  /** The source's check: shape and length, decode, encode again, compare. */
  function Check(text: string): Option<seq<Byte>> {
    if |text| > MAX_BYTES * 2 || !Shaped(text) then None
    else
      var bytes := Bytes(Indices(Standard, text[..|text| - PaddingLength(text)]));
      if Encode(bytes) == text && |bytes| <= MAX_BYTES then Some(bytes) else None
  }

  lemma EncodeIsShaped(b: seq<Byte>)
    ensures var text := Encode(b);
            && PaddingLength(text) == |Padding(|b|)| && Shaped(text)
            && text[..|text| - PaddingLength(text)] == Symbols(Standard, Sextets(b))
            && |text| == (|b| + 2) / 3 * 4
  {
    SextetCount(b);
    SymbolsArePadded(Sextets(b), |b|);
  }

  lemma SymbolsArePadded(ss: seq<Sextet>, count: nat)
    requires |ss| == Count(count)
    ensures var text := Symbols(Standard, ss) + Padding(count);
            && PaddingLength(text) == |Padding(count)| && Shaped(text)
            && text[..|text| - PaddingLength(text)] == Symbols(Standard, ss)
            && |text| == (count + 2) / 3 * 4
  {
    IndicesOfSymbols(Standard, ss);
    GroupsOfFour(count);
    PaddedIsShaped(Symbols(Standard, ss), count);
  }

  lemma PaddedIsShaped(body: string, count: nat)
    requires AllSymbols(Standard, body) && (|body| + |Padding(count)|) % 4 == 0
    ensures var text := body + Padding(count);
            && PaddingLength(text) == |Padding(count)| && text[..|text| - PaddingLength(text)] == body
            && Shaped(text)
  {
    NoPaddingInside(body);
    PaddingIsFound(body, count);
    assert (body + Padding(count))[..|body|] == body;
  }

  /** How many sextets carry n bytes. */
  function Count(n: nat): nat {
    if n == 0 then 0 else if n < 3 then n + 1 else 4 + Count(n - 3)
  }

  lemma {:induction false} SextetCount(b: seq<Byte>)
    ensures |Sextets(b)| == Count(|b|)
  {
    if |b| >= 3 {
      SextetCount(b[3..]);
    }
  }

  lemma {:induction false} GroupsOfFour(n: nat)
    ensures Count(n) + |Padding(n)| == (n + 2) / 3 * 4
    ensures (Count(n) + |Padding(n)|) % 4 == 0
  {
    if n >= 3 {
      GroupsOfFour(n - 3);
      SamePadding(n);
      OneMoreGroup(n);
    }
  }

  lemma SamePadding(n: nat)
    requires n >= 3
    ensures Padding(n) == Padding(n - 3)
  {
  }

  lemma OneMoreGroup(n: nat)
    requires n >= 3
    ensures (n + 2) / 3 == (n - 3 + 2) / 3 + 1
  {
  }

  lemma NoPaddingInside(body: string)
    requires AllSymbols(Standard, body)
    ensures forall i :: 0 <= i < |body| ==> body[i] != '='
  {
    forall i | 0 <= i < |body| ensures body[i] != '=' {
      assert IndexOf(Standard, body[i]).Some?;
    }
  }

  lemma PaddingIsFound(body: string, count: nat)
    requires forall i :: 0 <= i < |body| ==> body[i] != '='
    ensures PaddingLength(body + Padding(count)) == |Padding(count)|
  {
  }

  /** The check accepts exactly the canonical encodings of bounded byte strings, and returns the bytes. */
  lemma CheckIffCanonical(text: string, b: seq<Byte>)
    ensures Check(text) == Some(b) <==> |b| <= MAX_BYTES && text == Encode(b)
  {
    if |b| <= MAX_BYTES && text == Encode(b) {
      EncodeIsShaped(b);
      IndicesOfSymbols(Standard, Sextets(b));
      BytesOfSextets(b);
    }
  }

  /******* The forged tail *******/

  /** The last sextet with its unused bits replaced by 1; the remainder is the byte count modulo 3. */
  function Forge(tail: Sextet, remainder: nat): Sextet {
    if remainder == 1 then tail / 16 * 16 + 1 else tail / 4 * 4 + 1
  }

  lemma ForgeFacts(tail: Sextet)
    ensures Forge(tail, 1) / 16 == tail / 16 && Forge(tail, 1) % 16 == 1
    ensures Forge(tail, 2) / 4 == tail / 4 && Forge(tail, 2) % 4 == 1
  {
  }

  /** The source's variant of an unpadded payload; None stands for its error. */
  function NonCanonicalTail(payload: string): Option<string>
    requires AllSymbols(UrlSafe, payload)
  {
    var remainder := |Bytes(Indices(UrlSafe, payload))| % 3;
    if remainder == 0 || payload == [] then None
    else
      var tail := IndexOf(UrlSafe, payload[|payload| - 1]).value;
      Some(payload[..|payload| - 1] + [Symbol(UrlSafe, Forge(tail, remainder))])
  }

  /** Bytes do not depend on the unused bits. */
  lemma {:induction false} LastBitsIgnored(ss: seq<Sextet>, last: Sextet)
    requires |ss| % 4 == 2 || |ss| % 4 == 3
    requires if |ss| % 4 == 2 then last / 16 == ss[|ss| - 1] / 16 else last / 4 == ss[|ss| - 1] / 4
    ensures Bytes(ss[|ss| - 1 := last]) == Bytes(ss)
  {
    if |ss| >= 4 {
      LastBitsIgnored(ss[4..], last);
      UpdateBehind(ss, last);
    } else if |ss| == 2 {
      LastOfTwo(ss, last);
    } else {
      LastOfThree(ss, last);
    }
  }

  lemma UpdateBehind(ss: seq<Sextet>, last: Sextet)
    requires |ss| > 4 && Bytes(ss[4..][|ss| - 5 := last]) == Bytes(ss[4..])
    ensures Bytes(ss[|ss| - 1 := last]) == Bytes(ss)
  {
    BytesBehind(ss[..4], ss[4..]);
    BytesBehind(ss[..4], ss[4..][|ss| - 5 := last]);
    assert ss == ss[..4] + ss[4..];
    assert ss[|ss| - 1 := last] == ss[..4] + ss[4..][|ss| - 5 := last];
  }

  lemma BytesBehind(four: seq<Sextet>, rest: seq<Sextet>)
    requires |four| == 4
    ensures Bytes(four + rest) == ToThree(four[0], four[1], four[2], four[3]) + Bytes(rest)
  {
    assert (four + rest)[4..] == rest;
  }

  lemma LastOfTwo(ss: seq<Sextet>, last: Sextet)
    requires |ss| == 2 && last / 16 == ss[1] / 16
    ensures Bytes(ss[1 := last]) == Bytes(ss)
  {
  }

  lemma LastOfThree(ss: seq<Sextet>, last: Sextet)
    requires |ss| == 3 && last / 4 == ss[2] / 4
    ensures Bytes(ss[2 := last]) == Bytes(ss)
  {
  }

  /**
   A variant exists exactly when the payload has unused bits.  It decodes to the same bytes and is never
   a canonical encoding; it is a different text exactly when the unused bits were not already 1.
   */
  lemma NonCanonicalTailWorks(payload: string)
    requires AllSymbols(UrlSafe, payload)
    ensures var ss, forged := Indices(UrlSafe, payload), NonCanonicalTail(payload);
            && (forged.Some? <==> |payload| % 4 == 2 || |payload| % 4 == 3)
            && (forged.Some? ==>
                  && AllSymbols(UrlSafe, forged.value) && |forged.value| == |payload|
                  && Bytes(Indices(UrlSafe, forged.value)) == Bytes(ss)
                  && !CanonicalEnd(Indices(UrlSafe, forged.value))
                  && (forged.value != payload <==> UnusedBits(ss) != 1))
  {
    var ss := Indices(UrlSafe, payload);
    BytesLength(ss);
    if |ss| % 4 == 2 || |ss| % 4 == 3 {
      var last := Forge(ss[|ss| - 1], |Bytes(ss)| % 3);
      ForgeFacts(ss[|ss| - 1]);
      ForgedIndices(payload, last);
      LastBitsIgnored(ss, last);
    }
  }

  /** Replacing the last symbol replaces the last index. */
  lemma ForgedIndices(payload: string, last: Sextet)
    requires AllSymbols(UrlSafe, payload) && payload != []
    ensures var forged := payload[..|payload| - 1] + [Symbol(UrlSafe, last)];
            && AllSymbols(UrlSafe, forged)
            && Indices(UrlSafe, forged) == Indices(UrlSafe, payload)[|payload| - 1 := last]
            && (forged == payload <==> last == Indices(UrlSafe, payload)[|payload| - 1])
  {
    var n := |payload| - 1;
    var forged := payload[..n] + [Symbol(UrlSafe, last)];
    SymbolsAndIndices(UrlSafe, last, forged[n]);
    SymbolsAndIndices(UrlSafe, last, payload[n]);
    assert forged == payload <==> forged[n] == payload[n];
  }

  /** For every canonically encoded payload with unused bits the variant differs and fails re-encoding. */
  lemma ForgedTailIsRejected(b: seq<Byte>)
    requires |b| % 3 != 0
    ensures var payload := Symbols(UrlSafe, Sextets(b));
            && AllSymbols(UrlSafe, payload) && NonCanonicalTail(payload).Some?
            && var forged := NonCanonicalTail(payload).value;
            && forged != payload && AllSymbols(UrlSafe, forged)
            && Bytes(Indices(UrlSafe, forged)) == b
            && Symbols(UrlSafe, Sextets(Bytes(Indices(UrlSafe, forged)))) != forged
  {
    var payload := Symbols(UrlSafe, Sextets(b));
    IndicesOfSymbols(UrlSafe, Sextets(b));
    BytesOfSextets(b);
    SextetsOfBytesIff(Sextets(b));
    NonCanonicalTailWorks(payload);
  }
}
