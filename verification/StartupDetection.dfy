/** `Bandwidth`: a number of units per interval, compared by cross-multiplication. */
module Bandwidths {

  datatype Bandwidth = Bandwidth(units: nat, interval: nat) {

    /** `operator bool`. */
    predicate IsSet() {
      units != 0 && interval != 0
    }

    predicate Gt(rhs: Bandwidth) {
      if !IsSet() && !rhs.IsSet() then false
      else if !IsSet() && rhs.IsSet() then false
      else if IsSet() && !rhs.IsSet() then true
      else units * rhs.interval > rhs.units * interval
    }

    predicate Eq(rhs: Bandwidth) {
      if !IsSet() && !rhs.IsSet() then true
      else if !IsSet() || !rhs.IsSet() then false
      else units * rhs.interval == rhs.units * interval
    }

    predicate Ge(rhs: Bandwidth) {
      Gt(rhs) || Eq(rhs)
    }

    predicate Lt(rhs: Bandwidth) {
      !Ge(rhs)
    }

    /** The rate as a rational number; a bandwidth that is not set counts as 0. */
    ghost function Rate(): (r: real)
      ensures r >= 0.0 && (r > 0.0 <==> IsSet())
    {
      if IsSet() then units as real / interval as real else 0.0
    }

    /** `operator*(t)`: the units are rounded up. */
    function Times(t: real): Bandwidth
      requires t >= 0.0
    {
      Bandwidth(Ceil(units as real * t), interval)
    }

    /** `operator*(delay)`: the units over a delay, rounded down. */
    function Over(delay: nat): (n: nat)
      ensures interval != 0 ==> n * interval <= units * delay < n * interval + interval
    {
      if interval == 0 then 0 else units * delay / interval
    }
  }

  function Ceil(x: real): (n: nat)
    requires x >= 0.0
    ensures x <= n as real < x + 1.0
  {
    if x.Floor as real == x then x.Floor else x.Floor + 1
  }

  /** The comparisons order bandwidths by their rates. */
  lemma ComparisonsFollowRates(a: Bandwidth, b: Bandwidth)
    ensures a.Gt(b) <==> a.Rate() > b.Rate()
    ensures a.Ge(b) <==> a.Rate() >= b.Rate()
    ensures a.Lt(b) <==> a.Rate() < b.Rate()
  {
    if a.IsSet() && b.IsSet() {
      var x, y, u, v := a.units as real, b.units as real, a.interval as real, b.interval as real;
      CrossMultiply(x, u, y, v);
      assert (a.units * b.interval) as real == x * v && (b.units * a.interval) as real == y * u;
    }
  }

  lemma CrossMultiply(x: real, u: real, y: real, v: real)
    requires u > 0.0 && v > 0.0
    ensures x / u > y / v <==> x * v > y * u
    ensures x / u == y / v <==> x * v == y * u
  {
    var p, q := x / u, y / v;
    assert x == p * u && y == q * v;
    assert x * v - y * u == (p - q) * (u * v);
    var w := u * v;
    if p > q { assert (p - q) * w > 0.0; } else if p < q { assert (q - p) * w > 0.0; }
  }

  /** Scaling scales the rate by the factor, up to the next unit per interval. */
  lemma TimesScalesRate(a: Bandwidth, t: real)
    requires t >= 0.0
    ensures a.Rate() * t <= a.Times(t).Rate()
    ensures a.IsSet() ==> a.Times(t).Rate() < a.Rate() * t + 1.0 / a.interval as real
  {
    if a.IsSet() && t > 0.0 {
      var b, u := a.Times(t), a.interval as real;
      assert a.units as real * t > 0.0 && b.IsSet();
      assert b.units as real / u >= a.units as real * t / u by {
        DivideMonotone(a.units as real * t, b.units as real, u);
      }
      assert a.units as real * t / u == a.units as real / u * t;
    }
  }

  /** The units over a delay are the rate times the delay, rounded down. */
  lemma OverMeaning(a: Bandwidth, delay: nat)
    requires a.IsSet()
    ensures a.Over(delay) as real <= a.Rate() * delay as real < a.Over(delay) as real + 1.0
  {
    hide Bandwidth.Over;
    var n, u, v, d := a.Over(delay), a.units as real, a.interval as real, delay as real;
    assert (n * a.interval) as real == n as real * v && (a.units * delay) as real == u * d;
    DivideThenMultiply(u, v, d);
    DivideBetween(n as real, u * d, v);
  }

  lemma DivideThenMultiply(u: real, v: real, d: real)
    requires v > 0.0
    ensures u / v * d == u * d / v
  {
  }

  lemma DivideBetween(n: real, x: real, v: real)
    requires v > 0.0 && n * v <= x < n * v + v
    ensures n <= x / v < n + 1.0
  {
    CrossMultiply(n + 1.0, 1.0, x, v);
    CrossMultiply(n, 1.0, x, v);
  }

  lemma DivideMonotone(x: real, y: real, u: real)
    requires x <= y && u > 0.0
    ensures x / u <= y / u
  {
    assert y / u - x / u == (y - x) / u;
  }
}

/** `detectBottleneckBandwidth`: Startup ends once the estimate has failed three times in a row to
    grow by a quarter. */
module StartupDetection {
  import opened Bandwidths

  const EXPECTED_GROWTH: real := 1.25
  const SLOW_ROUND_LIMIT: nat := 3

  datatype Detector = Detector(previous: Bandwidth, slowRounds: nat, found: bool)

  const INITIAL: Detector := Detector(Bandwidth(0, 0), 0, false)

  function Detect(d: Detector, estimate: Bandwidth): Detector {
    if d.found then d
    else if estimate.Ge(d.previous.Times(EXPECTED_GROWTH)) then Detector(estimate, 0, false)
    else d.(slowRounds := d.slowRounds + 1, found := d.slowRounds + 1 >= SLOW_ROUND_LIMIT)
  }

  function DetectAll(estimates: seq<Bandwidth>): Detector {
    if estimates == [] then INITIAL
    else Detect(DetectAll(estimates[..|estimates| - 1]), estimates[|estimates| - 1])
  }

  function Pow(b: real, n: nat): real {
    if n == 0 then 1.0 else b * Pow(b, n - 1)
  }

  lemma {:induction false} PowGrows(m: nat, n: nat)
    requires m <= n
    ensures 1.0 <= Pow(1.25, m) <= Pow(1.25, n)
    decreases n
  {
    if m < n {
      PowGrows(m, n - 1);
    } else if n > 0 {
      PowGrows(m - 1, n - 1);
    }
  }

  ghost predicate Between(estimates: seq<Bandwidth>, lo: real, hi: real) {
    forall i :: 0 <= i < |estimates| ==> lo <= estimates[i].Rate() <= hi
  }

  /** As long as Startup lasts, the last estimate that counted has grown `g` times, and at most
      three rounds went into each time. */
  lemma {:induction false} GrowthSoFar(estimates: seq<Bandwidth>, lo: real, hi: real) returns (g: nat)
    requires lo > 0.0 && Between(estimates, lo, hi) && estimates != [] && !DetectAll(estimates).found
    ensures var d := DetectAll(estimates);
            && d.slowRounds < SLOW_ROUND_LIMIT && |estimates| <= 3 * g + 1 + d.slowRounds
            && lo * Pow(1.25, g) <= d.previous.Rate() <= hi
  {
    hide Bandwidth.Ge, Bandwidth.Times, Bandwidth.Rate, Pow;
    var n := |estimates| - 1;
    var before, e := DetectAll(estimates[..n]), estimates[n];
    if n == 0 {
      g := 0;
      FirstEstimateCounts(e);
    } else {
      g := GrowthSoFar(estimates[..n], lo, hi);
      if e.Ge(before.previous.Times(EXPECTED_GROWTH)) {
        GrowthStep(before.previous, e, lo, g);
        g := g + 1;
      }
    }
  }

  lemma FirstEstimateCounts(e: Bandwidth)
    ensures e.Ge(INITIAL.previous.Times(EXPECTED_GROWTH)) && Pow(1.25, 0) == 1.0
  {
    ComparisonsFollowRates(e, INITIAL.previous.Times(EXPECTED_GROWTH));
  }

  lemma GrowthStep(previous: Bandwidth, e: Bandwidth, lo: real, g: nat)
    requires lo * Pow(1.25, g) <= previous.Rate()
    requires e.Ge(previous.Times(EXPECTED_GROWTH))
    ensures lo * Pow(1.25, g + 1) <= e.Rate()
  {
    hide Bandwidth.Ge, Bandwidth.Times, Bandwidth.Rate;
    ComparisonsFollowRates(e, previous.Times(EXPECTED_GROWTH));
    TimesScalesRate(previous, EXPECTED_GROWTH);
    assert lo * Pow(1.25, g + 1) == lo * Pow(1.25, g) * EXPECTED_GROWTH;
  }

  /** If all estimates lie between `lo` and `hi`, and `k` growths would exceed `hi`, then Startup
      is over after more than `3 * k` rounds. */
  lemma StartupEnds(estimates: seq<Bandwidth>, lo: real, hi: real, k: nat)
    requires lo > 0.0 && Between(estimates, lo, hi) && hi < lo * Pow(1.25, k)
    requires |estimates| > 3 * k
    ensures DetectAll(estimates).found
  {
    hide Bandwidth.Rate, DetectAll, Pow;
    if !DetectAll(estimates).found {
      var g := GrowthSoFar(estimates, lo, hi);
      assert g >= k ==> lo * Pow(1.25, k) <= lo * Pow(1.25, g) by {
        if g >= k { PowGrows(k, g); }
      }
    }
  }

  /** An estimate that has not grown by a quarter, rounded up to a whole unit per interval. */
  ghost predicate Slow(e: Bandwidth, last: Bandwidth) {
    e.Rate() < last.Times(1.25).Rate()
  }

  /** The estimates that count: the first, and the one that is not slow among the three after one that
      counts, with only slow ones between. */
  ghost predicate Counts(estimates: seq<Bandwidth>, j: nat)
    requires j < |estimates|
    decreases j
  {
    j == 0 || exists k: nat :: k < j <= k + 3 && Counts(estimates, k) && GrowsFrom(estimates, k, j)
  }

  ghost predicate GrowsFrom(estimates: seq<Bandwidth>, k: nat, j: nat)
    requires k < j < |estimates|
  {
    !Slow(estimates[j], estimates[k]) && SlowBetween(estimates, k, j)
  }

  ghost predicate SlowBetween(estimates: seq<Bandwidth>, k: nat, j: nat)
    requires k < j <= |estimates|
  {
    forall i :: k < i < j ==> Slow(estimates[i], estimates[k])
  }

  /** Three slow estimates follow one that counts. */
  ghost predicate Stalls(estimates: seq<Bandwidth>, j: nat) {
    j + 3 < |estimates| && Counts(estimates, j) && SlowBetween(estimates, j, j + 4)
  }

  lemma DetectStep(estimates: seq<Bandwidth>, n: nat)
    requires n < |estimates|
    ensures DetectAll(estimates[..n + 1]) == Detect(DetectAll(estimates[..n]), estimates[n])
    ensures var d := DetectAll(estimates[..n]);
            && (d.found ==> DetectAll(estimates[..n + 1]) == d)
            && (!d.found && !Slow(estimates[n], d.previous) ==>
                  DetectAll(estimates[..n + 1]) == Detector(estimates[n], 0, false))
            && (!d.found && Slow(estimates[n], d.previous) ==>
                  DetectAll(estimates[..n + 1]) == Detector(d.previous, d.slowRounds + 1, d.slowRounds + 1 >= 3))
  {
    hide Bandwidth.Ge, Bandwidth.Times, Bandwidth.Rate;
    assert estimates[..n + 1][..n] == estimates[..n];
    ComparisonsFollowRates(estimates[n], DetectAll(estimates[..n]).previous.Times(1.25));
  }

  /** Where the detector stands after `n` estimates. */
  ghost predicate Stands(estimates: seq<Bandwidth>, n: nat, j: nat, d: Detector)
    requires n <= |estimates|
  {
    && j + d.slowRounds < n && Counts(estimates, j) && d.previous == estimates[j]
    && SlowBetween(estimates, j, j + d.slowRounds + 1)
    && d.slowRounds <= 3 && (d.found <==> d.slowRounds == 3) && (!d.found ==> j + d.slowRounds + 1 == n)
  }

  lemma {:induction false} WhereItStands(estimates: seq<Bandwidth>, n: nat) returns (j: nat)
    requires 0 < n <= |estimates|
    ensures Stands(estimates, n, j, DetectAll(estimates[..n]))
    decreases n
  {
    hide DetectAll, Detect, Slow;
    DetectStep(estimates, n - 1);
    if n == 1 {
      FirstIsNotSlow(estimates);
      j := 0;
    } else {
      j := WhereItStands(estimates, n - 1);
      var d := DetectAll(estimates[..n - 1]);
      if !d.found && !Slow(estimates[n - 1], d.previous) {
        assert GrowsFrom(estimates, j, n - 1);
        j := n - 1;
      }
    }
  }

  lemma FirstIsNotSlow(estimates: seq<Bandwidth>)
    requires estimates != []
    ensures DetectAll(estimates[..0]) == INITIAL && !Slow(estimates[0], INITIAL.previous)
  {
  }

  /** After slow estimates only, the detector has counted them. */
  lemma {:induction false} SlowOnes(estimates: seq<Bandwidth>, k: nat, n: nat)
    requires k < n <= |estimates| && n <= k + 4 && SlowBetween(estimates, k, n)
    requires DetectAll(estimates[..k + 1]) == Detector(estimates[k], 0, false)
    ensures DetectAll(estimates[..n]) == Detector(estimates[k], n - k - 1, n == k + 4)
    decreases n
  {
    hide DetectAll, Detect, Slow;
    if n > k + 1 {
      SlowOnes(estimates, k, n - 1);
      DetectStep(estimates, n - 1);
    }
  }

  lemma {:induction false} CountedIsRemembered(estimates: seq<Bandwidth>, j: nat)
    requires j < |estimates| && Counts(estimates, j)
    ensures DetectAll(estimates[..j + 1]) == Detector(estimates[j], 0, false)
    decreases j
  {
    hide DetectAll, Detect, Slow;
    DetectStep(estimates, j);
    if j == 0 {
      FirstIsNotSlow(estimates);
    } else {
      var k: nat :| k < j <= k + 3 && Counts(estimates, k) && GrowsFrom(estimates, k, j);
      CountedIsRemembered(estimates, k);
      SlowOnes(estimates, k, j);
    }
  }

  lemma {:induction false} FoundIsKept(estimates: seq<Bandwidth>, n: nat)
    requires n <= |estimates| && DetectAll(estimates[..n]).found
    ensures DetectAll(estimates).found
    decreases |estimates| - n
  {
    hide DetectAll, Detect, Slow;
    if n < |estimates| {
      DetectStep(estimates, n);
      FoundIsKept(estimates, n + 1);
    } else {
      assert estimates[..n] == estimates;
    }
  }

  /** Startup is over exactly if three slow estimates in a row have followed one that counts. */
  lemma StartupOverIff(estimates: seq<Bandwidth>)
    ensures DetectAll(estimates).found <==> exists j: nat :: Stalls(estimates, j)
  {
    hide Detect, Slow, Counts;
    if estimates != [] {
      assert estimates[..|estimates|] == estimates;
      var j := WhereItStands(estimates, |estimates|);
      assert DetectAll(estimates).found ==> Stalls(estimates, j);
    }
    if j: nat :| Stalls(estimates, j) {
      CountedIsRemembered(estimates, j);
      SlowOnes(estimates, j, j + 4);
      FoundIsKept(estimates, j + 4);
    }
  }
}
