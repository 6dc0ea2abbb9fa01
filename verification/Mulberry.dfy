/**
 The seeded generator of the fixture scripts (mulberry32 and select in
 scripts/organization-graph-contracts/software-delivery.ts, and the same generator again in
 contract-to-delivery.ts): its state visits every 32-bit word before it repeats.
 */
module Mulberry {

  const WORDS := 0x1_0000_0000
  const INCREMENT := 0x6d2b79f5

  /** The multiplicative inverse of the increment modulo 2^32. */
  const INVERSE := 0xdc58aa5d

  const QUOTIENT := 0x5df72c67

  type Word = w: int | 0 <= w < WORDS

  /** Unsigned right shift of a word. */
  function ShiftRight(v: bv32, bits: nat): bv32
    requires bits <= 32
  {
    v >> bits
  }

  /** The output mixing; Math.imul is multiplication modulo 2^32. */
  function Mix(state: bv32): bv32 {
    var first := (state ^ ShiftRight(state, 15)) * (state | 1);
    var second := first ^ (first + (first ^ ShiftRight(first, 7)) * (first | 61));
    second ^ ShiftRight(second, 14)
  }

  /** What the mixing makes of the first states from the seeds 0, 1 and -1, and of the states 0 and 1. */
  lemma KnownDraws()
    ensures Mix(0x6d2b_79f5) == 0x4434_b462 && Mix(0x6d2b_79f6) == 0xa087_eaf3 && Mix(0x6d2b_79f4) == 0xe57b_f3d3
    ensures Mix(0) == 0 && Mix(1) == 63
  {
  }

  /** One draw, as the numerator over 2^32. */
  function Output(state: Word): Word {
    Mix(state as bv32) as int
  }

  /** The state after n draws from a seed. */
  function StateAfter(seed: int, n: nat): Word {
    (seed + n * INCREMENT) % WORDS
  }

  class Generator {
    const mix: Word -> Word
    var state: Word

    /** Any integer seed, reduced to a word. */
    constructor (seed: int)
      ensures state == StateAfter(seed, 0) && mix == Output
    {
      mix, state := Output, seed % WORDS;
    }

    /** One draw: the state advances, and is mixed. */
    method Next() returns (draw: Word)
      modifies this
      ensures state == (old(state) + INCREMENT) % WORDS
      ensures draw == mix(state)
    {
      state := (state + INCREMENT) % WORDS;
      draw := mix(state);
    }
  }

  /** The mixed states after the first n draws from a seed. */
  function Outputs(mix: Word -> Word, seed: int, n: nat, count: nat): seq<Word> {
    if count == 0 then [] else Outputs(mix, seed, n, count - 1) + [mix(StateAfter(seed, n + count))]
  }

  /** Each draw is the mixed state after it. */
  lemma {:induction false} OutputsAt(mix: Word -> Word, seed: int, n: nat, count: nat, i: nat)
    requires i < count
    ensures |Outputs(mix, seed, n, count)| == count
    ensures Outputs(mix, seed, n, count)[i] == mix(StateAfter(seed, n + i + 1))
  {
    OutputsLength(mix, seed, n, count - 1);
    if i < count - 1 {
      OutputsAt(mix, seed, n, count - 1, i);
    }
  }

  lemma {:induction false} OutputsLength(mix: Word -> Word, seed: int, n: nat, count: nat)
    ensures |Outputs(mix, seed, n, count)| == count
  {
    if count > 0 {
      OutputsLength(mix, seed, n, count - 1);
    }
  }

  /** Draws a list of words; the state afterwards counts them. */
  method Draw(generator: Generator, seed: int, ghost n: nat, count: nat) returns (draws: seq<Word>)
    requires generator.state == StateAfter(seed, n)
    modifies generator
    ensures generator.state == StateAfter(seed, n + count)
    ensures draws == Outputs(generator.mix, seed, n, count)
  {
    draws := [];
    for i := 0 to count
      invariant generator.state == StateAfter(seed, n + i)
      invariant draws == Outputs(generator.mix, seed, n, i)
    {
      Step(seed, n + i);
      var draw := generator.Next();
      draws := draws + [draw];
    }
  }

  lemma Step(seed: int, n: nat)
    ensures (StateAfter(seed, n) + INCREMENT) % WORDS == StateAfter(seed, n + 1)
  {
  }

  lemma InverseIsInverse()
    ensures INCREMENT * INVERSE == 1 + QUOTIENT * WORDS
  {
  }

  lemma Multiple(x: int, k: int)
    requires x == k * WORDS
    ensures x % WORDS == 0
  {
  }

  /** Multiplying by the increment can be undone modulo 2^32. */
  lemma Undone(x: int)
    ensures (x * INCREMENT * INVERSE - x) % WORDS == 0
  {
    InverseIsInverse();
    assert x * INCREMENT * INVERSE == x * (1 + QUOTIENT * WORDS);
    assert x * INCREMENT * INVERSE - x == x * QUOTIENT * WORDS;
    Multiple(x * INCREMENT * INVERSE - x, x * QUOTIENT);
  }

  lemma SameRemainder(a: int, b: int)
    ensures a % WORDS == b % WORDS <==> (a - b) % WORDS == 0
  {
  }

  lemma ScaledMultiple(x: int, k: int)
    requires x % WORDS == 0
    ensures (x * k) % WORDS == 0
  {
    assert x == x / WORDS * WORDS;
    assert x * k == x / WORDS * k * WORDS;
    Multiple(x * k, x / WORDS * k);
  }

  lemma SumOfMultiples(x: int, y: int)
    requires x % WORDS == 0 && y % WORDS == 0
    ensures (x + y) % WORDS == 0 && (x - y) % WORDS == 0
  {
  }

  /** The word w is the state after exactly the draws that are congruent to one number. */
  lemma VisitedIff(seed: int, n: nat, w: Word)
    ensures StateAfter(seed, n) == w <==> (n - (w - seed) * INVERSE) % WORDS == 0
  {
    var ahead, distance := n * INCREMENT, w - seed;
    SameRemainder(seed + ahead, w);
    assert w % WORDS == w;
    assert seed + ahead - w == ahead - distance;
    Undone(n);
    Undone(distance);
    if (ahead - distance) % WORDS == 0 {
      ScaledMultiple(ahead - distance, INVERSE);
      assert (ahead - distance) * INVERSE == ahead * INVERSE - distance * INVERSE;
      SumOfMultiples((ahead - distance) * INVERSE, ahead * INVERSE - n);
      assert n - distance * INVERSE == (ahead - distance) * INVERSE - (ahead * INVERSE - n);
    }
    if (n - distance * INVERSE) % WORDS == 0 {
      ScaledMultiple(n - distance * INVERSE, INCREMENT);
      assert distance * INCREMENT * INVERSE == distance * INVERSE * INCREMENT;
      assert (n - distance * INVERSE) * INCREMENT == ahead - distance * INVERSE * INCREMENT;
      SumOfMultiples((n - distance * INVERSE) * INCREMENT, distance * INCREMENT * INVERSE - distance);
      assert ahead - distance == (n - distance * INVERSE) * INCREMENT + (distance * INCREMENT * INVERSE - distance);
    }
  }

  /** The generator has full period: it repeats a state exactly after multiples of 2^32 draws. */
  lemma FullPeriod(seed: int, n: nat, m: nat)
    ensures StateAfter(seed, n) == StateAfter(seed, m) <==> (n - m) % WORDS == 0
  {
    var w := StateAfter(seed, m);
    VisitedIff(seed, n, w);
    VisitedIff(seed, m, w);
    var x := (w - seed) * INVERSE;
    if (n - x) % WORDS == 0 {
      SumOfMultiples(n - x, m - x);
    }
    if (n - m) % WORDS == 0 {
      SumOfMultiples(n - m, m - x);
      assert n - m + (m - x) == n - x;
    }
  }

  /** Every word is the state after fewer than 2^32 draws. */
  lemma EveryWordIsVisited(seed: int, w: Word) returns (n: nat)
    ensures n < WORDS && StateAfter(seed, n) == w
  {
    n := (w - seed) * INVERSE % WORDS;
    SameRemainder(n, (w - seed) * INVERSE);
    VisitedIff(seed, n, w);
  }

  /******* Selection *******/

  /** floor(draw / 2^32 * length). */
  function Select(draw: Word, length: nat): nat
    requires length > 0
  {
    draw * length / WORDS
  }

  lemma ScaledDraw(draw: Word, length: nat)
    ensures 0 <= draw * length <= (WORDS - 1) * length
  {
    var slack: nat := WORDS - 1 - draw;
    assert (draw + slack) * length == draw * length + slack * length;
  }

  lemma QuotientIff(x: nat, index: nat)
    ensures x / WORDS == index <==> index * WORDS <= x < (index + 1) * WORDS
  {
  }

  lemma BelowLength(x: nat, length: nat)
    requires length > 0 && x <= (WORDS - 1) * length
    ensures x / WORDS < length
  {
    assert (WORDS - 1) * length < length * WORDS;
  }

  /** Selection stays inside the list, keeps the order of draws, and gives each index one run of draws. */
  lemma SelectIff(draw: Word, length: nat, index: nat)
    requires length > 0
    ensures Select(draw, length) < length
    ensures Select(draw, length) == index <==> index * WORDS <= draw * length < (index + 1) * WORDS
  {
    ScaledDraw(draw, length);
    QuotientIff(draw * length, index);
    BelowLength(draw * length, length);
  }

  /** Every index of a list of at most 2^32 elements is selected by some draw. */
  lemma EveryIndexSelected(length: nat, index: nat) returns (draw: Word)
    requires index < length <= WORDS
    ensures Select(draw, length) == index
  {
    var product := index * WORDS + (length - 1);
    var numerator := product / length;
    CeilingBounds(product, length);
    BelowWords(index, length, numerator);
    draw := numerator;
    QuotientIff(draw * length, index);
  }

  lemma CeilingBounds(product: nat, length: nat)
    requires length > 0
    ensures product - length + 1 <= product / length * length <= product
  {
  }

  lemma BelowWords(index: nat, length: nat, numerator: nat)
    requires index < length <= WORDS && numerator * length <= index * WORDS + (length - 1)
    ensures numerator < WORDS
  {
    if numerator >= WORDS {
      AtLeastWords(numerator, length);
    }
  }

  lemma AtLeastWords(numerator: nat, length: nat)
    requires numerator >= WORDS
    ensures numerator * length >= WORDS * length
  {
    var slack: nat := numerator - WORDS;
    assert numerator * length == WORDS * length + slack * length;
  }
}
