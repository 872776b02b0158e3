/**
 The averages of BenchSuite::Log in utils/bench-scheduler.cc: Welford's one-pass update, proved to
 give the two-pass mean and sum of squared deviations, over the reals.
 */
module Welford {

  datatype PhaseResult = PhaseResult(time: real, rate: real, period: real)
  datatype Result = Result(init: PhaseResult, run: PhaseResult)

  // ---------------------------------------------------------------- the two-pass definitions

  ghost function Sum(xs: seq<real>, f: real -> real): real {
    if xs == [] then 0.0 else Sum(xs[..|xs| - 1], f) + f(xs[|xs| - 1])
  }

  ghost function Same(): real -> real {
    (x: real) => x
  }

  ghost function Square(): real -> real {
    (x: real) => x * x
  }

  ghost function SquareFrom(center: real): real -> real {
    (x: real) => (x - center) * (x - center)
  }

  ghost function Mean(xs: seq<real>): real
    requires xs != []
  {
    Sum(xs, Same()) / |xs| as real
  }

  ghost function SquaredDeviations(xs: seq<real>, center: real): real {
    Sum(xs, SquareFrom(center))
  }

  /** `average` and `moment2` describe the samples; with no sample the average is still free. */
  ghost predicate Tracks(average: real, moment2: real, xs: seq<real>) {
    moment2 == SquaredDeviations(xs, average) && (xs != [] ==> average == Mean(xs))
  }

  // ---------------------------------------------------------------- one update

  /** ACCUMULATE for one field. */
  function Accumulate(average: real, moment2: real, x: real, count: nat): (real, real)
    requires count > 0
  {
    var deltaPre := x - average;
    var average' := average + deltaPre / count as real;
    var deltaPost := x - average';
    (average', moment2 + deltaPre * deltaPost)
  }

  /** Summing is linear. */
  lemma {:induction false} SumLinear(
    xs: seq<real>, f: real -> real, g: real -> real, h: real -> real, k: real, b: real)
    requires forall x :: f(x) == g(x) + k * h(x) + b
    ensures Sum(xs, f) == Sum(xs, g) + k * Sum(xs, h) + |xs| as real * b
  {
    if xs == [] {
      assert k * 0.0 == 0.0 && 0.0 * b == 0.0;
    } else {
      var init, x := xs[..|xs| - 1], xs[|xs| - 1];
      SumLinear(init, f, g, h, k, b);
      LinearStep(Sum(init, f), Sum(init, g), Sum(init, h), |init| as real, k, b, f(x), g(x), h(x),
                 Sum(xs, h), |xs| as real);
    }
  }

  lemma LinearStep(
    f: real, g: real, h: real, n: real, k: real, b: real, fx: real, gx: real, hx: real, h': real, n': real)
    requires f == g + k * h + n * b && fx == gx + k * hx + b && h' == h + hx && n' == n + 1.0
    ensures f + fx == (g + gx) + k * h' + n' * b
  {
    assert k * h' == k * h + k * hx;
    assert n' * b == n * b + b;
  }

  lemma {:induction false} DeviationsExpand(xs: seq<real>, c: real)
    ensures SquaredDeviations(xs, c) == Sum(xs, Square()) + (-2.0 * c) * Sum(xs, Same()) + |xs| as real * (c * c)
  {
    forall x: real ensures SquareFrom(c)(x) == Square()(x) + (-2.0 * c) * Same()(x) + c * c {
      assert (x - c) * (x - c) == x * x + (-2.0 * c) * x + c * c;
    }
    SumLinear(xs, SquareFrom(c), Square(), Same(), -2.0 * c, c * c);
  }

  /** The algebra of the update: n samples of mean m, a new sample x, and the new mean m'. */
  lemma UpdateAlgebra(q: real, n: real, m: real, x: real, m': real)
    requires (n + 1.0) * m' == n * m + x
    ensures (q - n * m * m) + (x - m) * (x - m') == (q + x * x) - (n + 1.0) * m' * m'
  {
    assert (n + 1.0) * m' * m' == n * m * m' + x * m' by {
      assert ((n + 1.0) * m') * m' == (n * m + x) * m';
    }
    assert m * ((n + 1.0) * m') == m * (n * m + x);
    assert m * ((n + 1.0) * m') == n * m * m' + m * m';
    assert m * (n * m + x) == n * m * m + m * x;
    assert (x - m) * (x - m') == x * x - x * m' - m * x + m * m';
  }

  /** The deviations from the mean, written with the sum of the squares. */
  lemma CenterAlgebra(d: real, q: real, s: real, n: real, m: real)
    requires s == n * m && d == q + (-2.0 * m) * s + n * (m * m)
    ensures d == q - n * m * m
  {
    assert m * s == n * m * m;
    assert (-2.0 * m) * s == -2.0 * (m * s);
    assert n * (m * m) == n * m * m;
  }

  /** The update moves the mean to the mean of n + 1 samples. */
  lemma NewMean(n: real, m: real, x: real, m': real)
    requires n >= 0.0 && m' == m + (x - m) / (n + 1.0)
    ensures (n + 1.0) * m' == n * m + x
  {
    var d := (x - m) / (n + 1.0);
    assert (n + 1.0) * d == x - m;
    assert (n + 1.0) * m' == (n + 1.0) * m + (n + 1.0) * d;
    assert (n + 1.0) * m == n * m + m;
  }

  lemma Quotient(s: real, n: real, m: real)
    requires n > 0.0 && s == n * m
    ensures s / n == m
  {
  }

  lemma {:induction false} MeanTimesCount(xs: seq<real>)
    requires xs != []
    ensures Sum(xs, Same()) == |xs| as real * Mean(xs)
  {
  }

  lemma {:induction false} SumAppend(xs: seq<real>, x: real, f: real -> real)
    ensures Sum(xs + [x], f) == Sum(xs, f) + f(x)
  {
    assert (xs + [x])[..|xs|] == xs;
  }

  lemma {:induction false} DeviationsAtMean(xs: seq<real>, n: real, m: real, s: real, q: real)
    requires n == |xs| as real && s == Sum(xs, Same()) && s == n * m && q == Sum(xs, Square())
    ensures SquaredDeviations(xs, m) == q - n * m * m
  {
    DeviationsExpand(xs, m);
    CenterAlgebra(SquaredDeviations(xs, m), q, s, n, m);
  }

  lemma {:induction false} DeviationsAtNewMean(xs: seq<real>, x: real, n: real, m': real, s: real, q: real)
    requires n == |xs| as real && s == Sum(xs, Same()) && s + x == (n + 1.0) * m' && q == Sum(xs, Square())
    ensures SquaredDeviations(xs + [x], m') == (q + x * x) - (n + 1.0) * m' * m'
  {
    SumAppend(xs, x, Same());
    SumAppend(xs, x, Square());
    DeviationsAtMean(xs + [x], n + 1.0, m', s + x, q + x * x);
  }

  lemma {:induction false} MomentUpdate(xs: seq<real>, x: real, n: real, m: real, m': real, s: real)
    requires n == |xs| as real && s == Sum(xs, Same()) && s == n * m && (n + 1.0) * m' == s + x
    ensures SquaredDeviations(xs + [x], m') == SquaredDeviations(xs, m) + (x - m) * (x - m')
  {
    var q := Sum(xs, Square());
    var d, d' := SquaredDeviations(xs, m), SquaredDeviations(xs + [x], m');
    DeviationsAtMean(xs, n, m, s, q);
    DeviationsAtNewMean(xs, x, n, m', s, q);
    UpdateAlgebra(q, n, m, x, m');
  }

  /** The new average is the mean of the extended samples. */
  lemma {:induction false} MeanUpdate(xs: seq<real>, x: real, n: real, m': real, s: real)
    requires n == |xs| as real && s == Sum(xs, Same()) && s + x == (n + 1.0) * m'
    ensures m' == Mean(xs + [x])
  {
    SumAppend(xs, x, Same());
    Quotient(s + x, n + 1.0, m');
  }

  lemma {:induction false} SumOfTracked(average: real, moment2: real, xs: seq<real>, n: real)
    requires Tracks(average, moment2, xs) && n == |xs| as real
    ensures Sum(xs, Same()) == n * average
  {
    if xs != [] {
      MeanTimesCount(xs);
    } else {
      assert 0.0 * average == 0.0;
    }
  }

  lemma {:induction false} UpdateTracks(
    average: real, moment2: real, xs: seq<real>, x: real, n: real, average': real, moment2': real)
    requires Tracks(average, moment2, xs) && n == |xs| as real
    requires (n + 1.0) * average' == n * average + x && moment2' == moment2 + (x - average) * (x - average')
    ensures Tracks(average', moment2', xs + [x])
  {
    var s := Sum(xs, Same());
    SumOfTracked(average, moment2, xs, n);
    MeanUpdate(xs, x, n, average', s);
    MomentUpdate(xs, x, n, average, average', s);
  }

  /** One update keeps the description exact, whatever the average was before the first sample. */
  lemma {:induction false} AccumulateTracks(average: real, moment2: real, xs: seq<real>, x: real)
    requires Tracks(average, moment2, xs)
    ensures var (a, m) := Accumulate(average, moment2, x, |xs| + 1); Tracks(a, m, xs + [x])
  {
    var n := |xs| as real;
    var (average', moment2') := Accumulate(average, moment2, x, |xs| + 1);
    assert (|xs| + 1) as real == n + 1.0;
    NewMean(n, average, x, average');
    UpdateTracks(average, moment2, xs, x, n, average', moment2');
  }

  lemma {:induction false} DeviationsNonNegative(xs: seq<real>, c: real)
    ensures SquaredDeviations(xs, c) >= 0.0
  {
    if xs != [] {
      DeviationsNonNegative(xs[..|xs| - 1], c);
      var d := xs[|xs| - 1] - c;
      assert d * d >= 0.0;
    }
  }

  // ---------------------------------------------------------------- the loop over all fields

  ghost function Column(results: seq<Result>, field: Result -> real): seq<real> {
    seq(|results|, i requires 0 <= i < |results| => field(results[i]))
  }

  ghost predicate TracksField(average: Result, moment2: Result, results: seq<Result>, field: Result -> real) {
    Tracks(field(average), field(moment2), Column(results, field))
  }

  /** The six figures of a result. */
  function Field(k: nat): Result -> real {
    (r: Result) =>
      if k == 0 then r.init.time else if k == 1 then r.init.rate else if k == 2 then r.init.period
      else if k == 3 then r.run.time else if k == 4 then r.run.rate else r.run.period
  }

  ghost predicate TracksAll(average: Result, moment2: Result, results: seq<Result>) {
    forall k :: 0 <= k < 6 ==> TracksField(average, moment2, results, Field(k))
  }

  /** The macro applied to the six fields, one after the other. */
  function AccumulateAll(average: Result, moment2: Result, run: Result, count: nat): (r: (Result, Result))
    requires count > 0
    ensures forall k :: 0 <= k < 6 ==>
              (Field(k)(r.0), Field(k)(r.1)) == Accumulate(Field(k)(average), Field(k)(moment2), Field(k)(run), count)
  {
    var (at, mt) := Accumulate(average.init.time, moment2.init.time, run.init.time, count);
    var (ar, mr) := Accumulate(average.init.rate, moment2.init.rate, run.init.rate, count);
    var (ap, mp) := Accumulate(average.init.period, moment2.init.period, run.init.period, count);
    var (bt, nt) := Accumulate(average.run.time, moment2.run.time, run.run.time, count);
    var (br, nr) := Accumulate(average.run.rate, moment2.run.rate, run.run.rate, count);
    var (bp, np) := Accumulate(average.run.period, moment2.run.period, run.run.period, count);
    (Result(PhaseResult(at, ar, ap), PhaseResult(bt, br, bp)), Result(PhaseResult(mt, mr, mp), PhaseResult(nt, nr, np)))
  }

  lemma {:induction false} AccumulateField(
    average: Result, moment2: Result, average': Result, moment2': Result,
    results: seq<Result>, n: nat, field: Result -> real)
    requires n < |results| && TracksField(average, moment2, results[..n], field)
    requires (field(average'), field(moment2')) == Accumulate(field(average), field(moment2), field(results[n]), n + 1)
    ensures TracksField(average', moment2', results[..n + 1], field)
  {
    var xs := Column(results[..n], field);
    assert Column(results[..n + 1], field) == xs + [field(results[n])];
    AccumulateTracks(field(average), field(moment2), xs, field(results[n]));
  }

  lemma {:induction false} AccumulateAllTracks(average: Result, moment2: Result, results: seq<Result>, n: nat)
    requires n < |results| && TracksAll(average, moment2, results[..n])
    ensures var r := AccumulateAll(average, moment2, results[n], n + 1); TracksAll(r.0, r.1, results[..n + 1])
  {
    var r := AccumulateAll(average, moment2, results[n], n + 1);
    forall k | 0 <= k < 6 ensures TracksField(r.0, r.1, results[..n + 1], Field(k)) {
      AccumulateField(average, moment2, r.0, r.1, results, n, Field(k));
    }
  }

  /** The figures of every result, one column per field. */
  ghost function InitTimes(rs: seq<Result>): seq<real> { seq(|rs|, i requires 0 <= i < |rs| => rs[i].init.time) }
  ghost function InitRates(rs: seq<Result>): seq<real> { seq(|rs|, i requires 0 <= i < |rs| => rs[i].init.rate) }
  ghost function InitPeriods(rs: seq<Result>): seq<real> { seq(|rs|, i requires 0 <= i < |rs| => rs[i].init.period) }
  ghost function RunTimes(rs: seq<Result>): seq<real> { seq(|rs|, i requires 0 <= i < |rs| => rs[i].run.time) }
  ghost function RunRates(rs: seq<Result>): seq<real> { seq(|rs|, i requires 0 <= i < |rs| => rs[i].run.rate) }
  ghost function RunPeriods(rs: seq<Result>): seq<real> { seq(|rs|, i requires 0 <= i < |rs| => rs[i].run.period) }

  lemma {:induction false} TracksEachField(average: Result, moment2: Result, rs: seq<Result>)
    requires TracksAll(average, moment2, rs)
    ensures Tracks(average.init.time, moment2.init.time, InitTimes(rs))
    ensures Tracks(average.init.rate, moment2.init.rate, InitRates(rs))
    ensures Tracks(average.init.period, moment2.init.period, InitPeriods(rs))
    ensures Tracks(average.run.time, moment2.run.time, RunTimes(rs))
    ensures Tracks(average.run.rate, moment2.run.rate, RunRates(rs))
    ensures Tracks(average.run.period, moment2.run.period, RunPeriods(rs))
  {
    assert TracksField(average, moment2, rs, Field(0)) && Column(rs, Field(0)) == InitTimes(rs);
    assert TracksField(average, moment2, rs, Field(1)) && Column(rs, Field(1)) == InitRates(rs);
    assert TracksField(average, moment2, rs, Field(2)) && Column(rs, Field(2)) == InitPeriods(rs);
    assert TracksField(average, moment2, rs, Field(3)) && Column(rs, Field(3)) == RunTimes(rs);
    assert TracksField(average, moment2, rs, Field(4)) && Column(rs, Field(4)) == RunRates(rs);
    assert TracksField(average, moment2, rs, Field(5)) && Column(rs, Field(5)) == RunPeriods(rs);
  }

  /**
   BenchSuite::Log up to the square roots: nothing for fewer than two results, and otherwise the
   average and the sum of squared deviations from it, for each of the six fields.
   */
  method Log(results: seq<Result>) returns (logged: bool, average: Result, moment2: Result)
    ensures logged <==> |results| >= 2
    ensures logged ==>
              && Tracks(average.init.time, moment2.init.time, InitTimes(results))
              && Tracks(average.init.rate, moment2.init.rate, InitRates(results))
              && Tracks(average.init.period, moment2.init.period, InitPeriods(results))
              && Tracks(average.run.time, moment2.run.time, RunTimes(results))
              && Tracks(average.run.rate, moment2.run.rate, RunRates(results))
              && Tracks(average.run.period, moment2.run.period, RunPeriods(results))
  {
    var zero := PhaseResult(0.0, 0.0, 0.0);
    average, moment2 := Result(zero, zero), Result(zero, zero);
    if |results| < 2 {
      return false, average, moment2;
    }
    logged, average := true, results[0];
    for n := 0 to |results|
      invariant TracksAll(average, moment2, results[..n])
    {
      AccumulateAllTracks(average, moment2, results, n);
      var r := AccumulateAll(average, moment2, results[n], n + 1);
      average, moment2 := r.0, r.1;
    }
    assert results[..|results|] == results;
    TracksEachField(average, moment2, results);
  }
}
