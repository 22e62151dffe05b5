/** The hardware diagnosis of a benchmark (cli/src/observability.rs, diagnose_hardware_behavior): peaks,
    throttling, and Pearson's correlation of throughput and CPU frequency, over the reals. */
module Correlation {

  import opened Options

  /** The fields read from one telemetry sample; any may be missing. */
  datatype Sample = Sample(throttle: Option<nat>, socTemp: Option<real>, batteryTemp: Option<real>,
                           throughput: Option<real>, cpuFreq: Option<real>)

  datatype Link = StrongPositive | Negative | Neutral
  datatype Conclusion = Insufficient | Throttling | HighThermalLoad | Healthy
  datatype Findings = Findings(peakSoc: real, peakBattery: real, link: Link)
  datatype Report = Report(correlation: real, conclusion: Conclusion, findings: Option<Findings>)

  // ---------------------------------------------------------------- sums

  function Sum(xs: seq<real>): real {
    if xs == [] then 0.0 else Sum(xs[..|xs| - 1]) + xs[|xs| - 1]
  }

  function Dot(a: seq<real>, b: seq<real>): real
    requires |a| == |b|
  {
    if a == [] then 0.0 else Dot(a[..|a| - 1], b[..|b| - 1]) + a[|a| - 1] * b[|b| - 1]
  }

  function Mean(xs: seq<real>): real
    requires xs != []
  {
    Sum(xs) / |xs| as real
  }

  function Deviations(xs: seq<real>, m: real): (d: seq<real>)
    ensures |d| == |xs|
  {
    seq(|xs|, i requires 0 <= i < |xs| => xs[i] - m)
  }

  /** A square root on the non-negative reals. */
  ghost predicate IsRoot(root: real -> real) {
    forall x: real :: x >= 0.0 ==> root(x) >= 0.0 && root(x) * root(x) == x
  }

  function Correlate(num: real, denX: real, denY: real, root: real -> real): real
    requires IsRoot(root)
  {
    if denX > 0.0 && denY > 0.0 then
      Positive(denX, denY);
      num / root(denX * denY)
    else 0.0
  }

  lemma Positive(x: real, y: real)
    requires x > 0.0 && y > 0.0
    ensures x * y > 0.0
  {
  }

  /** The correlation of two series. */
  function Pearson(xs: seq<real>, ys: seq<real>, root: real -> real): real
    requires |xs| == |ys| && xs != [] && IsRoot(root)
  {
    var a, b := Deviations(xs, Mean(xs)), Deviations(ys, Mean(ys));
    Correlate(Dot(a, b), Dot(a, a), Dot(b, b), root)
  }

  // ---------------------------------------------------------------- the diagnosis

  function Socs(samples: seq<Sample>): (r: seq<real>)
    ensures |r| == |samples|
  {
    seq(|samples|, i requires 0 <= i < |samples| => samples[i].socTemp.UnwrapOr(0.0))
  }

  function Batteries(samples: seq<Sample>): (r: seq<real>)
    ensures |r| == |samples|
  {
    seq(|samples|, i requires 0 <= i < |samples| => samples[i].batteryTemp.UnwrapOr(0.0))
  }

  function Throughputs(samples: seq<Sample>): (r: seq<real>)
    ensures |r| == |samples|
  {
    seq(|samples|, i requires 0 <= i < |samples| => samples[i].throughput.UnwrapOr(0.0))
  }

  function Freqs(samples: seq<Sample>): (r: seq<real>)
    ensures |r| == |samples|
  {
    seq(|samples|, i requires 0 <= i < |samples| => samples[i].cpuFreq.UnwrapOr(0.0))
  }

  predicate Throttled(s: Sample) { s.throttle.UnwrapOr(0) > 0 }

  function ThrottledCount(samples: seq<Sample>): (n: nat)
    ensures n <= |samples|
  {
    if samples == [] then 0
    else ThrottledCount(samples[..|samples| - 1]) + if Throttled(samples[|samples| - 1]) then 1 else 0
  }

  /** The samples taken while throttled, by their place in the list. */
  function ThrottledTicks(samples: seq<Sample>): set<nat> {
    set i | 0 <= i < |samples| && Throttled(samples[i])
  }

  lemma {:induction false} ThrottledCountIs(samples: seq<Sample>)
    ensures ThrottledCount(samples) == |ThrottledTicks(samples)|
  {
    if samples == [] {
      assert ThrottledTicks(samples) == {};
    } else {
      var n := |samples| - 1;
      ThrottledCountIs(samples[..n]);
      var before := ThrottledTicks(samples[..n]);
      assert forall i :: 0 <= i < n ==> samples[..n][i] == samples[i];
      assert ThrottledTicks(samples) == if Throttled(samples[n]) then before + {n} else before;
    }
  }

  /** The highest reading, or 0 if none is above it. */
  predicate IsPeak(peak: real, readings: seq<real>) {
    && peak >= 0.0
    && (forall i :: 0 <= i < |readings| ==> readings[i] <= peak)
    && (peak == 0.0 || peak in readings)
  }

  /** A share of the samples above 5 %. */
  predicate OftenThrottled(samples: seq<Sample>) { 20 * |ThrottledTicks(samples)| > |samples| }

  predicate EverAbove(readings: seq<real>, limit: real) { exists i :: 0 <= i < |readings| && readings[i] > limit }

  method Diagnose(samples: seq<Sample>, root: real -> real) returns (r: Report)
    requires IsRoot(root)
    ensures |samples| < 2 ==> r == Report(0.0, Insufficient, None)
    ensures |samples| >= 2 ==>
      && r.correlation == Pearson(Throughputs(samples), Freqs(samples), root)
      && r.findings.Some?
      && IsPeak(r.findings.value.peakSoc, Socs(samples))
      && IsPeak(r.findings.value.peakBattery, Batteries(samples))
      && (r.findings.value.link == StrongPositive <==> r.correlation > 0.6)
      && (r.findings.value.link == Negative <==> r.correlation < -0.3)
      && (r.conclusion == Throttling <==> OftenThrottled(samples))
      && (r.conclusion == HighThermalLoad <==> !OftenThrottled(samples) && EverAbove(Socs(samples), 72.0))
      && r.conclusion != Insufficient
  {
    var n := |samples|;
    if n < 2 {
      return Report(0.0, Insufficient, None);
    }
    var throttleTicks, maxSoc, maxBattery, throughputs, freqs := Collect(samples);
    var throttlePct := throttleTicks as real / n as real * 100.0;
    Percentage(throttleTicks, n);
    PeakAbove(maxSoc, Socs(samples), 72.0);
    var correlation := MeasureCorrelation(throughputs, freqs, root);
    var link := if correlation > 0.6 then StrongPositive else if correlation < -0.3 then Negative else Neutral;
    var conclusion :=
      if throttlePct > 5.0 then Throttling else if maxSoc > 72.0 then HighThermalLoad else Healthy;
    r := Report(correlation, conclusion, Some(Findings(maxSoc, maxBattery, link)));
  }

  lemma Percentage(ticks: nat, n: nat)
    requires n > 0
    ensures ticks as real / n as real * 100.0 > 5.0 <==> 20 * ticks > n
  {
    var q, m := ticks as real / n as real, n as real;
    Quotient(ticks as real, m);
    SameSign(q - 0.05, m);
    assert (q - 0.05) * m == ticks as real - 0.05 * m;
  }

  lemma Quotient(t: real, m: real)
    requires m > 0.0
    ensures t / m * m == t
  {
  }

  lemma SameSign(d: real, m: real)
    requires m > 0.0
    ensures d * m > 0.0 <==> d > 0.0
    ensures d * m < 0.0 <==> d < 0.0
  {
  }

  lemma PeakAbove(peak: real, readings: seq<real>, limit: real)
    requires IsPeak(peak, readings) && limit >= 0.0
    ensures peak > limit <==> EverAbove(readings, limit)
  {
  }

  /** The first loop. */
  method Collect(samples: seq<Sample>)
    returns (throttleTicks: nat, maxSoc: real, maxBattery: real, throughputs: seq<real>, freqs: seq<real>)
    ensures throttleTicks == ThrottledCount(samples) == |ThrottledTicks(samples)|
    ensures IsPeak(maxSoc, Socs(samples)) && IsPeak(maxBattery, Batteries(samples))
    ensures forall s <- samples :: (s.socTemp.Some? ==> s.socTemp.value <= maxSoc)
                                   && (s.batteryTemp.Some? ==> s.batteryTemp.value <= maxBattery)
    ensures maxSoc == 0.0 || exists s <- samples :: s.socTemp == Some(maxSoc)
    ensures maxBattery == 0.0 || exists s <- samples :: s.batteryTemp == Some(maxBattery)
    ensures throughputs == Throughputs(samples) && freqs == Freqs(samples)
  {
    ghost var socs, batteries := Socs(samples), Batteries(samples);
    throttleTicks, maxSoc, maxBattery, throughputs, freqs := 0, 0.0, 0.0, [], [];
    for i := 0 to |samples|
      invariant throttleTicks == ThrottledCount(samples[..i])
      invariant IsPeak(maxSoc, socs[..i]) && IsPeak(maxBattery, batteries[..i])
      invariant throughputs == Throughputs(samples)[..i] && freqs == Freqs(samples)[..i]
    {
      var s := samples[i];
      assert samples[..i + 1][..i] == samples[..i];
      if Throttled(s) {
        throttleTicks := throttleTicks + 1;
      }
      var soc := s.socTemp.UnwrapOr(0.0);
      PeakNext(maxSoc, socs, i);
      if soc > maxSoc {
        maxSoc := soc;
      }
      var battery := s.batteryTemp.UnwrapOr(0.0);
      PeakNext(maxBattery, batteries, i);
      if battery > maxBattery {
        maxBattery := battery;
      }
      throughputs := throughputs + [s.throughput.UnwrapOr(0.0)];
      freqs := freqs + [s.cpuFreq.UnwrapOr(0.0)];
    }
    assert samples[..|samples|] == samples && socs[..|samples|] == socs && batteries[..|samples|] == batteries;
    ThrottledCountIs(samples);
    PeakOfReadings(samples, maxSoc, maxBattery);
  }

  /** The peaks are those of the readings that are there. */
  lemma PeakOfReadings(samples: seq<Sample>, maxSoc: real, maxBattery: real)
    requires IsPeak(maxSoc, Socs(samples)) && IsPeak(maxBattery, Batteries(samples))
    ensures forall s <- samples :: (s.socTemp.Some? ==> s.socTemp.value <= maxSoc)
                                   && (s.batteryTemp.Some? ==> s.batteryTemp.value <= maxBattery)
    ensures maxSoc == 0.0 || exists s <- samples :: s.socTemp == Some(maxSoc)
    ensures maxBattery == 0.0 || exists s <- samples :: s.batteryTemp == Some(maxBattery)
  {
    var socs, batteries := Socs(samples), Batteries(samples);
    forall s | s in samples
      ensures s.socTemp.Some? ==> s.socTemp.value <= maxSoc
      ensures s.batteryTemp.Some? ==> s.batteryTemp.value <= maxBattery
    {
      var i :| 0 <= i < |samples| && samples[i] == s;
      assert socs[i] <= maxSoc && batteries[i] <= maxBattery;
    }
    if maxSoc != 0.0 {
      var i :| 0 <= i < |socs| && socs[i] == maxSoc;
      assert samples[i] in samples && samples[i].socTemp == Some(maxSoc);
    }
    if maxBattery != 0.0 {
      var i :| 0 <= i < |batteries| && batteries[i] == maxBattery;
      assert samples[i] in samples && samples[i].batteryTemp == Some(maxBattery);
    }
  }

  lemma PeakNext(peak: real, readings: seq<real>, i: nat)
    requires i < |readings| && IsPeak(peak, readings[..i])
    ensures IsPeak(if readings[i] > peak then readings[i] else peak, readings[..i + 1])
  {
    assert readings[..i + 1] == readings[..i] + [readings[i]];
  }

  method MeasureCorrelation(xs: seq<real>, ys: seq<real>, root: real -> real) returns (correlation: real)
    requires |xs| == |ys| && xs != [] && IsRoot(root)
    ensures correlation == Pearson(xs, ys, root)
  {
    var meanX := Average(xs);
    var meanY := Average(ys);
    var num, denX, denY := Comoments(xs, meanX, ys, meanY);
    correlation := Correlate(num, denX, denY, root);
  }

  method Average(xs: seq<real>) returns (m: real)
    requires xs != []
    ensures m == Mean(xs)
  {
    var sum := 0.0;
    for i := 0 to |xs|
      invariant sum == Sum(xs[..i])
    {
      assert xs[..i + 1][..i] == xs[..i];
      sum := sum + xs[i];
    }
    assert xs[..|xs|] == xs;
    m := sum / |xs| as real;
  }

  /** The second loop. */
  method Comoments(xs: seq<real>, meanX: real, ys: seq<real>, meanY: real) returns (num: real, denX: real, denY: real)
    requires |xs| == |ys|
    ensures var a, b := Deviations(xs, meanX), Deviations(ys, meanY);
      num == Dot(a, b) && denX == Dot(a, a) && denY == Dot(b, b)
  {
    ghost var a, b := Deviations(xs, meanX), Deviations(ys, meanY);
    num, denX, denY := 0.0, 0.0, 0.0;
    for i := 0 to |xs|
      invariant num == Dot(a[..i], b[..i]) && denX == Dot(a[..i], a[..i]) && denY == Dot(b[..i], b[..i])
    {
      var diffX, diffY := xs[i] - meanX, ys[i] - meanY;
      DotNext(a, b, i);
      DotNext(a, a, i);
      DotNext(b, b, i);
      num := num + diffX * diffY;
      denX := denX + diffX * diffX;
      denY := denY + diffY * diffY;
    }
    assert a[..|xs|] == a && b[..|xs|] == b;
  }

  lemma DotNext(a: seq<real>, b: seq<real>, i: nat)
    requires |a| == |b| && i < |a|
    ensures Dot(a[..i + 1], b[..i + 1]) == Dot(a[..i], b[..i]) + a[i] * b[i]
  {
    assert a[..i + 1][..i] == a[..i] && b[..i + 1][..i] == b[..i];
  }

  // ---------------------------------------------------------------- Cauchy-Schwarz

  /** p b - q a. */
  function Combination(a: seq<real>, b: seq<real>, p: real, q: real): (c: seq<real>)
    requires |a| == |b|
    ensures |c| == |a|
  {
    seq(|a|, i requires 0 <= i < |a| => p * b[i] - q * a[i])
  }

  lemma {:induction false} DotOfCombination(x: seq<real>, a: seq<real>, b: seq<real>, p: real, q: real)
    requires |x| == |a| == |b|
    ensures Dot(x, Combination(a, b, p, q)) == p * Dot(x, b) - q * Dot(x, a)
  {
    if a != [] {
      var n := |a| - 1;
      var c := Combination(a, b, p, q);
      DotOfCombination(x[..n], a[..n], b[..n], p, q);
      CombinationFront(a, b, p, q);
      OneTermMore(p, q, Dot(x[..n], c[..n]), Dot(x[..n], b[..n]), Dot(x[..n], a[..n]), x[n], c[n], a[n], b[n],
                  Dot(x, c), Dot(x, b), Dot(x, a));
    }
  }

  lemma CombinationFront(a: seq<real>, b: seq<real>, p: real, q: real)
    requires |a| == |b| && a != []
    ensures var n := |a| - 1; Combination(a, b, p, q)[..n] == Combination(a[..n], b[..n], p, q)
  {
    var n := |a| - 1;
    var c := Combination(a, b, p, q);
    forall i | 0 <= i < n
      ensures c[..n][i] == Combination(a[..n], b[..n], p, q)[i]
    {
      assert a[..n][i] == a[i] && b[..n][i] == b[i];
    }
  }

  lemma OneTermMore(p: real, q: real, sum: real, sumB: real, sumA: real, x: real, c: real, a: real, b: real,
                    newSum: real, newB: real, newA: real)
    requires sum == p * sumB - q * sumA && c == p * b - q * a
    requires newSum == sum + x * c && newB == sumB + x * b && newA == sumA + x * a
    ensures newSum == p * newB - q * newA
  {
    LinearTerm(x, a, b, p, q);
    Distribute(p, sumB, x * b);
    Distribute(q, sumA, x * a);
  }

  lemma LinearTerm(x: real, a: real, b: real, p: real, q: real)
    ensures x * (p * b - q * a) == p * (x * b) - q * (x * a)
  {
  }

  lemma Distribute(p: real, x: real, y: real)
    ensures p * (x + y) == p * x + p * y
  {
  }

  lemma {:induction false} DotSymmetric(a: seq<real>, b: seq<real>)
    requires |a| == |b|
    ensures Dot(a, b) == Dot(b, a)
  {
    if a != [] {
      DotSymmetric(a[..|a| - 1], b[..|b| - 1]);
    }
  }

  lemma {:induction false} SquaresVanish(a: seq<real>)
    ensures Dot(a, a) >= 0.0
    ensures Dot(a, a) == 0.0 <==> forall i :: 0 <= i < |a| ==> a[i] == 0.0
  {
    if a != [] {
      var n := |a| - 1;
      var p, t := Dot(a[..n], a[..n]), a[n] * a[n];
      SquaresVanish(a[..n]);
      var last := a[n];
      Square(last, t);
      assert a == a[..n] + [last];
      assert Dot(a, a) == p + t;
    }
  }

  lemma Square(x: real, t: real)
    requires t == x * x
    ensures t >= 0.0
    ensures t == 0.0 <==> x == 0.0
  {
    if x > 0.0 {
      BothPositive(x, x, t);
    } else if x < 0.0 {
      BothNegative(x, x, t);
    }
  }

  lemma BothPositive(x: real, y: real, t: real)
    requires x > 0.0 && y > 0.0 && t == x * y
    ensures t > 0.0
  {
  }

  lemma BothNegative(x: real, y: real, t: real)
    requires x < 0.0 && y < 0.0 && t == x * y
    ensures t > 0.0
  {
  }

  /** The sum of squares that proves the inequality and its equality case. */
  lemma Lagrange(a: seq<real>, b: seq<real>, x: real, n: real, d: real)
    requires |a| == |b| && x == Dot(a, a) && n == Dot(a, b) && d == x * Dot(b, b) - n * n
    ensures var c := Combination(a, b, x, n); Dot(c, c) == x * d
  {
    var c := Combination(a, b, x, n);
    DotOfCombination(c, a, b, x, n);
    Orthogonal(a, b, x, n);
    Parallel(a, b, x, n);
    SameFactor(x, Dot(c, b), d);
    assert n * Dot(c, a) == n * 0.0 == 0.0;
  }

  lemma Orthogonal(a: seq<real>, b: seq<real>, x: real, n: real)
    requires |a| == |b| && x == Dot(a, a) && n == Dot(a, b)
    ensures Dot(Combination(a, b, x, n), a) == 0.0
  {
    DotOfCombination(a, a, b, x, n);
    DotSymmetric(a, Combination(a, b, x, n));
    Commute(x, n);
  }

  lemma Parallel(a: seq<real>, b: seq<real>, x: real, n: real)
    requires |a| == |b| && x == Dot(a, a) && n == Dot(a, b)
    ensures Dot(Combination(a, b, x, n), b) == x * Dot(b, b) - n * n
  {
    DotOfCombination(b, a, b, x, n);
    DotSymmetric(b, Combination(a, b, x, n));
    DotSymmetric(a, b);
  }

  lemma SameFactor(p: real, x: real, y: real)
    requires x == y
    ensures p * x == p * y
  {
  }

  lemma OtherFactor(x: real, d: real)
    requires x > 0.0 && x * d >= 0.0
    ensures d >= 0.0
  {
  }

  lemma Commute(x: real, y: real)
    ensures x * y == y * x
  {
  }

  /** The square of the numerator never exceeds the product of the denominators. */
  lemma CauchySchwarz(a: seq<real>, b: seq<real>)
    requires |a| == |b|
    ensures Dot(a, b) * Dot(a, b) <= Dot(a, a) * Dot(b, b)
  {
    var x, y, n := Dot(a, a), Dot(b, b), Dot(a, b);
    var d := x * y - n * n;
    Lagrange(a, b, x, n, d);
    SquaresVanish(a);
    SquaresVanish(Combination(a, b, x, n));
    if x == 0.0 {
      ZeroDot(a, b);
    } else {
      OtherFactor(x, d);
    }
  }

  lemma {:induction false} ZeroDot(a: seq<real>, b: seq<real>)
    requires |a| == |b| && forall i :: 0 <= i < |a| ==> a[i] == 0.0
    ensures Dot(a, b) == 0.0
  {
    if a != [] {
      ZeroDot(a[..|a| - 1], b[..|b| - 1]);
    }
  }
}
