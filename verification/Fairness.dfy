/**
 The throughput counters and Jain's fairness index of examples/tcp/dctcp-example.cc, in the wrapping
 64-bit arithmetic of the source.
 */
module Fairness {

  const WORD := 0x1_0000_0000_0000_0000

  function Wrap(x: nat): nat {
    x % WORD
  }

  // ---------------------------------------------------------------- exact sums

  ghost function Sum(xs: seq<nat>): nat {
    if xs == [] then 0 else Sum(xs[..|xs| - 1]) + xs[|xs| - 1]
  }

  ghost function SumSquares(xs: seq<nat>): nat {
    if xs == [] then 0 else SumSquares(xs[..|xs| - 1]) + xs[|xs| - 1] * xs[|xs| - 1]
  }

  /** The squared differences between `x` and every element. */
  ghost function Spread(xs: seq<nat>, x: nat): nat {
    if xs == [] then 0
    else Spread(xs[..|xs| - 1], x) + (xs[|xs| - 1] - x) * (xs[|xs| - 1] - x)
  }

  /** The squared differences over all unordered pairs of elements. */
  ghost function PairSpread(xs: seq<nat>): nat {
    if xs == [] then 0 else PairSpread(xs[..|xs| - 1]) + Spread(xs[..|xs| - 1], xs[|xs| - 1])
  }

  ghost predicate AllEqual(xs: seq<nat>) {
    forall i, j :: 0 <= i < |xs| && 0 <= j < |xs| ==> xs[i] == xs[j]
  }

  lemma ExpandOneMore(p: int, q: int, s: int, n: int, x: int, y: int)
    requires p == q - 2 * x * s + n * x * x
    ensures p + (y - x) * (y - x) == (q + y * y) - 2 * x * (s + y) + (n + 1) * x * x
  {
    assert (y - x) * (y - x) == y * y - 2 * x * y + x * x;
    assert 2 * x * (s + y) == 2 * x * s + 2 * x * y;
    assert (n + 1) * x * x == n * x * x + x * x;
  }

  lemma {:induction false} SpreadExpand(xs: seq<nat>, x: nat)
    ensures Spread(xs, x) == SumSquares(xs) - 2 * x * Sum(xs) + |xs| * x * x
  {
    if xs != [] {
      var init, y := xs[..|xs| - 1], xs[|xs| - 1];
      SpreadExpand(init, x);
      ExpandOneMore(Spread(init, x), SumSquares(init), Sum(init), |init|, x, y);
    }
  }

  lemma LagrangeStep(p: int, q: int, s: int, n: int, x: int, spread: int)
    requires n * q - s * s == p && spread == q - 2 * x * s + n * x * x
    ensures (n + 1) * (q + x * x) - (s + x) * (s + x) == p + spread
  {
    assert (n + 1) * (q + x * x) == n * q + n * x * x + q + x * x;
    assert (s + x) * (s + x) == s * s + 2 * x * s + x * x;
  }

  /** Lagrange's identity: what Cauchy-Schwarz leaves over is the spread of the pairs. */
  lemma {:induction false} Lagrange(xs: seq<nat>)
    ensures |xs| * SumSquares(xs) - Sum(xs) * Sum(xs) == PairSpread(xs)
  {
    if xs != [] {
      var init, x := xs[..|xs| - 1], xs[|xs| - 1];
      Lagrange(init);
      SpreadExpand(init, x);
      LagrangeStep(PairSpread(init), SumSquares(init), Sum(init), |init|, x, Spread(init, x));
    }
  }

  lemma {:induction false} SpreadZero(xs: seq<nat>, x: nat)
    ensures Spread(xs, x) == 0 <==> forall i :: 0 <= i < |xs| ==> xs[i] == x
  {
    if xs != [] {
      SpreadZero(xs[..|xs| - 1], x);
      SquareZero(xs[|xs| - 1] - x);
    }
  }

  lemma SquareZero(d: int)
    ensures d * d >= 0 && (d * d == 0 <==> d == 0)
  {
  }

  lemma {:induction false} PairSpreadZero(xs: seq<nat>)
    ensures PairSpread(xs) == 0 <==> AllEqual(xs)
  {
    if xs != [] {
      var init, x := xs[..|xs| - 1], xs[|xs| - 1];
      PairSpreadZero(init);
      SpreadZero(init, x);
      assert forall i :: 0 <= i < |init| ==> init[i] == xs[i];
      if AllEqual(xs) {
        assert AllEqual(init);
      }
    }
  }

  lemma {:induction false} SquaresBelowSquare(xs: seq<nat>)
    ensures SumSquares(xs) <= Sum(xs) * Sum(xs)
  {
    if xs != [] {
      var init, x := xs[..|xs| - 1], xs[|xs| - 1];
      SquaresBelowSquare(init);
      CrossTerm(Sum(init), x);
    }
  }

  lemma CrossTerm(s: nat, x: nat)
    ensures (s + x) * (s + x) >= s * s + x * x
  {
    assert (s + x) * (s + x) == s * s + 2 * (s * x) + x * x;
    assert s * x >= 0;
  }

  /**
   Jain's index lies between 1/n and 1: the sum of the squares is at most the squared sum, and that
   is at most n times the sum of the squares, with equality exactly for equal counts.
   */
  lemma {:induction false} FairnessBounds(xs: seq<nat>)
    ensures SumSquares(xs) <= Sum(xs) * Sum(xs) <= |xs| * SumSquares(xs)
    ensures Sum(xs) * Sum(xs) == |xs| * SumSquares(xs) <==> AllEqual(xs)
  {
    SquaresBelowSquare(xs);
    Lagrange(xs);
    PairSpreadZero(xs);
  }

  // ---------------------------------------------------------------- 64-bit arithmetic

  lemma WrapAdd(a: nat, b: nat)
    ensures Wrap(Wrap(a) + b) == Wrap(a + b) && Wrap(a + Wrap(b)) == Wrap(a + b)
  {
  }

  lemma WrapMultiple(x: nat, k: nat)
    ensures Wrap(x + k * WORD) == Wrap(x)
    decreases k
  {
    if k > 0 {
      WrapMultiple(x, k - 1);
      var y := x + (k - 1) * WORD;
      assert x + k * WORD == y + WORD;
    }
  }

  lemma WrapTimes(a: nat, b: nat)
    ensures Wrap(a * Wrap(b)) == Wrap(a * b)
  {
    var q, r := b / WORD, Wrap(b);
    assert b == r + q * WORD;
    assert a * b == a * r + (a * q) * WORD;
    WrapMultiple(a * r, a * q);
  }

  lemma WrapSquare(a: nat)
    ensures Wrap(Wrap(a) * Wrap(a)) == Wrap(a * a)
  {
    WrapTimes(Wrap(a), a);
    assert Wrap(a) * a == a * Wrap(a);
    WrapTimes(a, a);
  }

  ghost predicate AtMost(xs: seq<nat>, bound: nat) {
    forall i :: 0 <= i < |xs| ==> xs[i] <= bound
  }

  lemma {:induction false} SumsAtMost(xs: seq<nat>, bound: nat)
    requires AtMost(xs, bound)
    ensures Sum(xs) <= |xs| * bound && SumSquares(xs) <= |xs| * (bound * bound)
  {
    if xs != [] {
      var init, x := xs[..|xs| - 1], xs[|xs| - 1];
      SumsAtMost(init, bound);
      SquareMonotone(x, bound);
      Distribute(|init|, bound);
      Distribute(|init|, bound * bound);
    }
  }

  lemma SquareMonotone(x: nat, y: nat)
    requires x <= y
    ensures x * x <= y * y
  {
    assert y * y == x * x + (y - x) * (y + x);
    assert (y - x) * (y + x) >= 0;
  }

  lemma Distribute(n: nat, b: nat)
    ensures (n + 1) * b == n * b + b
  {
  }

  /** What PrintFairness computes for one group of flows: all figures are 64-bit words. */
  datatype Group = Group(sum: nat, sumSquares: nat, numerator: nat, denominator: nat)

  /** The figures before any wrap-around. */
  ghost function Exact(xs: seq<nat>): Group {
    Group(Sum(xs), SumSquares(xs), Sum(xs) * Sum(xs), |xs| * SumSquares(xs))
  }

  ghost function Wrapped(g: Group): Group {
    Group(Wrap(g.sum), Wrap(g.sumSquares), Wrap(g.numerator), Wrap(g.denominator))
  }

  /** Every count is at most some bound whose n-fold fits in 32 bits. */
  ghost predicate Small(xs: seq<nat>) {
    exists bound: nat :: AtMost(xs, bound) && |xs| * bound < 0x1_0000_0000
  }

  lemma {:induction false} SmallCountsAreExact(xs: seq<nat>, bound: nat)
    requires AtMost(xs, bound) && |xs| * bound < 0x1_0000_0000
    ensures Sum(xs) < WORD && SumSquares(xs) < WORD
    ensures Sum(xs) * Sum(xs) < WORD && |xs| * SumSquares(xs) < WORD
  {
    SumsAtMost(xs, bound);
    var m := |xs| * bound;
    SquareMonotone(Sum(xs), m);
    SquareMonotone(m, 0xFFFF_FFFF);
    if xs != [] {
      Scaled(|xs|, SumSquares(xs), bound);
      assert Sum(xs) <= m < WORD;
    }
  }

  lemma Scaled(n: nat, q: nat, bound: nat)
    requires n >= 1 && q <= n * (bound * bound)
    ensures q <= n * q <= (n * bound) * (n * bound)
  {
    assert n * q <= n * (n * (bound * bound)) by {
      assert n * (n * (bound * bound) - q) >= 0;
    }
    assert n * (n * (bound * bound)) == (n * bound) * (n * bound);
    assert n * q == q + (n - 1) * q;
    assert (n - 1) * q >= 0;
  }

  /** The accumulation loop: both sums are right modulo 2^64. */
  method SumGroup(bytes: array<nat>) returns (sum: nat, sumSquares: nat)
    ensures sum == Wrap(Sum(bytes[..])) && sumSquares == Wrap(SumSquares(bytes[..]))
  {
    sum, sumSquares := 0, 0;
    for i := 0 to bytes.Length
      invariant sum == Wrap(Sum(bytes[..i])) && sumSquares == Wrap(SumSquares(bytes[..i]))
    {
      assert bytes[..i + 1][..i] == bytes[..i];
      var b := bytes[i];
      WrapAdd(Sum(bytes[..i]), b);
      WrapBoth(SumSquares(bytes[..i]), b * b);
      sum := Wrap(sum + b);
      sumSquares := Wrap(sumSquares + Wrap(b * b));
    }
    assert bytes[..bytes.Length] == bytes[..];
  }

  lemma WrapBoth(a: nat, b: nat)
    ensures Wrap(Wrap(a) + Wrap(b)) == Wrap(a + b)
  {
    WrapAdd(a, Wrap(b));
    WrapAdd(a, b);
  }

  /** The figures of one group: all four are right modulo 2^64, and exact for small counts. */
  method GroupFairness(bytes: array<nat>) returns (g: Group)
    ensures g == Wrapped(Exact(bytes[..]))
    ensures Small(bytes[..]) ==> g == Exact(bytes[..])
  {
    var sum, sumSquares := SumGroup(bytes);
    g := Group(sum, sumSquares, Wrap(sum * sum), Wrap(bytes.Length * sumSquares));
    WrapSquare(Sum(bytes[..]));
    WrapTimes(bytes.Length, SumSquares(bytes[..]));
    SmallFitsWords(bytes[..]);
  }

  lemma {:induction false} SmallFitsWords(xs: seq<nat>)
    ensures Small(xs) ==> Wrapped(Exact(xs)) == Exact(xs)
  {
    if Small(xs) {
      var bound: nat :| AtMost(xs, bound) && |xs| * bound < 0x1_0000_0000;
      SmallCountsAreExact(xs, bound);
      var g := Exact(xs);
      WordsAreKept(g);
    }
  }

  lemma WordsAreKept(g: Group)
    requires g.sum < WORD && g.sumSquares < WORD && g.numerator < WORD && g.denominator < WORD
    ensures Wrapped(g) == g
  {
  }

  /** The aggregate over two groups, reported in bits, is right modulo 2^64. */
  method AggregateBits(a: array<nat>, b: array<nat>) returns (bits: nat)
    ensures bits == Wrap(8 * (Sum(a[..]) + Sum(b[..])))
  {
    var sum := 0;
    for i := 0 to a.Length
      invariant sum == Wrap(Sum(a[..i]))
    {
      assert a[..i + 1][..i] == a[..i];
      WrapAdd(Sum(a[..i]), a[i]);
      sum := Wrap(sum + a[i]);
    }
    assert a[..a.Length] == a[..];
    ghost var first := Sum(a[..]);
    for i := 0 to b.Length
      invariant sum == Wrap(first + Sum(b[..i]))
    {
      assert b[..i + 1][..i] == b[..i];
      WrapAdd(first + Sum(b[..i]), b[i]);
      sum := Wrap(sum + b[i]);
    }
    assert b[..b.Length] == b[..];
    WrapTimes(8, first + Sum(b[..]));
    bits := Wrap(sum * 8);
  }

  class Counters {
    const rxS1R1Bytes: array<nat>
    const rxS2R2Bytes: array<nat>
    const rxS3R1Bytes: array<nat>

    ghost predicate Valid() {
      && rxS1R1Bytes.Length == 10 && rxS2R2Bytes.Length == 20 && rxS3R1Bytes.Length == 10
      && rxS1R1Bytes != rxS3R1Bytes
    }

    constructor ()
      ensures Valid() && fresh(rxS1R1Bytes) && fresh(rxS2R2Bytes) && fresh(rxS3R1Bytes)
    {
      rxS1R1Bytes, rxS2R2Bytes, rxS3R1Bytes := new nat[10], new nat[20], new nat[10];
    }

    /** Each trace sink adds the packet to the counter of its flow and touches no other. */
    method TraceSink(group: array<nat>, index: nat, size: nat)
      requires Valid() && group in {rxS1R1Bytes, rxS2R2Bytes, rxS3R1Bytes} && index < group.Length
      modifies group
      ensures group[..] == old(group[..])[index := Wrap(old(group[index]) + size)]
    {
      group[index] := Wrap(group[index] + size);
    }

    method InitializeCounters()
      requires Valid()
      modifies rxS1R1Bytes, rxS2R2Bytes, rxS3R1Bytes
      ensures Sum(rxS1R1Bytes[..]) == Sum(rxS2R2Bytes[..]) == Sum(rxS3R1Bytes[..]) == 0
    {
      Clear(rxS1R1Bytes);
      Clear(rxS2R2Bytes);
      Clear(rxS3R1Bytes);
    }

    method Clear(group: array<nat>)
      modifies group
      ensures forall i :: 0 <= i < group.Length ==> group[i] == 0
      ensures Sum(group[..]) == 0
    {
      for i := 0 to group.Length
        invariant forall k :: 0 <= k < i ==> group[k] == 0
      {
        group[i] := 0;
      }
      SumZero(group[..]);
    }

    /** The three indices and the two aggregates of PrintFairness. */
    method PrintFairness() returns (s1: Group, s2: Group, s3: Group, throughT1: nat, toR1: nat)
      requires Valid()
      ensures s1 == Wrapped(Exact(rxS1R1Bytes[..])) && (Small(rxS1R1Bytes[..]) ==> s1 == Exact(rxS1R1Bytes[..]))
      ensures s2 == Wrapped(Exact(rxS2R2Bytes[..])) && (Small(rxS2R2Bytes[..]) ==> s2 == Exact(rxS2R2Bytes[..]))
      ensures s3 == Wrapped(Exact(rxS3R1Bytes[..])) && (Small(rxS3R1Bytes[..]) ==> s3 == Exact(rxS3R1Bytes[..]))
      ensures throughT1 == Wrap(8 * (Sum(rxS1R1Bytes[..]) + Sum(rxS2R2Bytes[..])))
      ensures toR1 == Wrap(8 * (Sum(rxS3R1Bytes[..]) + Sum(rxS1R1Bytes[..])))
    {
      s1 := GroupFairness(rxS1R1Bytes);
      s2 := GroupFairness(rxS2R2Bytes);
      s3 := GroupFairness(rxS3R1Bytes);
      throughT1 := AggregateBits(rxS1R1Bytes, rxS2R2Bytes);
      toR1 := AggregateBits(rxS3R1Bytes, rxS1R1Bytes);
    }
  }

  lemma {:induction false} SumZero(xs: seq<nat>)
    requires forall i :: 0 <= i < |xs| ==> xs[i] == 0
    ensures Sum(xs) == 0
  {
    if xs != [] {
      SumZero(xs[..|xs| - 1]);
    }
  }
}
