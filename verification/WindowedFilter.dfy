/** `WindowedFilter` with `MaxFilter`: three estimates that track the largest sample of a window. */
module WindowedFilters {

  datatype Sample = Sample(value: nat, time: nat)

  datatype Estimates = Estimates(best: Sample, second: Sample, third: Sample) {

    ghost predicate Ordered() {
      && best.value >= second.value >= third.value
      && best.time <= second.time <= third.time
    }
  }

  function Uniform(s: Sample): Estimates { Estimates(s, s, s) }

  /** The estimate is one of the samples, and no later sample is larger. */
  ghost predicate Leads(history: seq<Sample>, e: Sample) {
    exists at :: 0 <= at < |history| && history[at] == e && NoneLarger(history, at, e.value)
  }

  ghost predicate NoneLarger(history: seq<Sample>, from: nat, value: nat) {
    forall j :: from <= j < |history| ==> history[j].value <= value
  }

  ghost predicate Tracks(history: seq<Sample>, e: Estimates, zero: nat) {
    if history == [] then e.best.value == zero
    else e.Ordered() && Leads(history, e.best) && Leads(history, e.second) && Leads(history, e.third)
  }

  lemma OrderedOnceUsed(history: seq<Sample>, e: Estimates, zero: nat)
    requires Tracks(history, e, zero)
    ensures if history == [] then e.best.value == zero else e.Ordered()
  {
  }

  /** A sample that is not larger leaves a lead as it is, and the newest sample leads. */
  lemma LeadsOn(history: seq<Sample>, x: Sample, e: Sample)
    requires e == x || (Leads(history, e) && x.value <= e.value)
    ensures Leads(history + [x], e)
  {
    var longer := history + [x];
    if e == x {
      assert longer[|history|] == e && NoneLarger(longer, |history|, e.value);
    } else {
      var at :| 0 <= at < |history| && history[at] == e && NoneLarger(history, at, e.value);
      assert longer[at] == e && NoneLarger(longer, at, e.value);
    }
  }

  /** A sample that is not a new best takes the place of the estimates it is not smaller than. */
  function Placed(e: Estimates, x: Sample): Estimates {
    if x.value >= e.second.value then Estimates(e.best, x, x)
    else if x.value >= e.third.value then e.(third := x)
    else e
  }

  /** The best estimates that have left the window make room for the next ones. */
  function Promoted(e: Estimates, window: nat, x: Sample): Estimates {
    if x.time - e.second.time > window then Estimates(e.third, x, x) else Estimates(e.second, e.third, x)
  }

  /** Estimates that are still one sample after a quarter or half of the window are told apart. */
  function Refreshed(e: Estimates, window: nat, x: Sample): Estimates {
    if e.second.value == e.best.value && x.time - e.second.time > window / 4 then Estimates(e.best, x, x)
    else if e.third.value == e.second.value && x.time - e.third.time > window / 2 then e.(third := x)
    else e
  }

  function Updated(e: Estimates, zero: nat, window: nat, x: Sample): Estimates {
    if e.best.value == zero || x.value >= e.best.value || x.time - e.third.time > window then Uniform(x)
    else
      var p := Placed(e, x);
      if x.time - p.best.time > window then Promoted(p, window, x) else Refreshed(p, window, x)
  }

  /** Every update keeps the invariant, and leaves a best estimate that is a sample of the last
      window and at least as large as every sample since. */
  lemma UpdatedTracks(history: seq<Sample>, e: Estimates, zero: nat, window: nat, x: Sample)
    requires Tracks(history, e, zero) && (history != [] ==> e.third.time <= x.time)
    ensures var u := Updated(e, zero, window, x);
            && Tracks(history + [x], u, zero)
            && x.time - u.best.time <= window && u.third.time <= x.time && x.value <= u.third.value
            && (x.value >= e.best.value ==> u.best == x)
            && (history != [] && e.best.value != zero && x.value < e.best.value && x.time - e.best.time <= window ==>
                u.best == e.best)
  {
    hide Leads;
    var u := Updated(e, zero, window, x);
    LeadsOn(history, x, x);
    forall s: Sample | s == e.best || s == e.second || s == e.third
      ensures history != [] && x.value <= s.value ==> Leads(history + [x], s)
    {
      if history != [] && x.value <= s.value { LeadsOn(history, x, s); }
    }
  }

  /** Whether a sample starts the filter anew: there was none, or it is a new best, or even the newest
      estimate has left the window. */
  predicate Restarts(e: Estimates, zero: nat, window: nat, x: Sample) {
    e.best.value == zero || x.value >= e.best.value || x.time - e.third.time > window
  }

  /** While the best estimate is in the window it stays.  The second gives way to a sample that reaches
      it, or that comes a quarter of the window after it while it is no smaller than the best; the third
      likewise, after half of the window, and with the second. */
  ghost predicate BestStays(e: Estimates, window: nat, x: Sample, u: Estimates) {
    && u.best == e.best
    && u.second == (if x.value >= e.second.value
                       || (e.second.value == e.best.value && x.time - e.second.time > window / 4)
                    then x else e.second)
    && u.third == (if x.value >= e.third.value || u.second == x
                      || (e.third.value == e.second.value && x.time - e.third.time > window / 2)
                   then x else e.third)
  }

  /** When the best estimate leaves the window, the next one that is in it takes its place, and the newest
      sample becomes the last. */
  ghost predicate BestExpires(e: Estimates, window: nat, x: Sample, u: Estimates) {
    && u.third == x
    && (x.value >= e.second.value ==> u.best == u.second == x)
    && (x.value < e.second.value && x.time - e.second.time <= window ==>
          u.best == e.second && u.second == if x.value >= e.third.value then x else e.third)
    && (x.value < e.second.value && x.time - e.second.time > window ==>
          u.second == x && u.best == if x.value >= e.third.value then x else e.third)
  }

  /** What an update does to the three estimates, case by case. */
  lemma UpdateCases(e: Estimates, zero: nat, window: nat, x: Sample)
    requires Restarts(e, zero, window, x) || (e.Ordered() && e.third.time <= x.time)
    ensures var u := Updated(e, zero, window, x);
            if Restarts(e, zero, window, x) then u.best == u.second == u.third == x
            else if x.time - e.best.time <= window then BestStays(e, window, x, u)
            else BestExpires(e, window, x, u)
  {
  }

  /** Estimates of one value do not grow old together: the second is at most a quarter of the window
      old if it is no smaller than the best, and the third at most half if no smaller than the second. */
  lemma EstimatesAreSpread(e: Estimates, zero: nat, window: nat, x: Sample)
    requires e.Ordered() && e.third.time <= x.time && x.value < e.best.value
    requires Updated(e, zero, window, x).best == e.best
    ensures var u := Updated(e, zero, window, x);
            && (u.second.value == u.best.value ==> x.time - u.second.time <= window / 4)
            && (u.third.value == u.second.value ==> x.time - u.third.time <= window / 2)
  {
    UpdateCases(e, zero, window, x);
  }

  class WindowedFilter {
    const zero: nat
    var windowLength: nat
    var estimates: array<Sample>
    ghost var history: seq<Sample>

    ghost function Current(): Estimates
      requires estimates.Length == 3
      reads `estimates, estimates
    {
      Estimates(estimates[0], estimates[1], estimates[2])
    }

    ghost predicate Valid()
      reads this, estimates
    {
      estimates.Length == 3 && Tracks(history, Current(), zero)
    }

    constructor (windowLength: nat, zero: nat, zeroTime: nat)
      ensures Valid() && fresh(estimates) && history == [] && Current() == Uniform(Sample(zero, zeroTime))
      ensures this.windowLength == windowLength && this.zero == zero
    {
      this.windowLength, this.zero, history := windowLength, zero, [];
      estimates := new Sample[3](_ => Sample(zero, zeroTime));
    }

    /** Takes the samples in the order of their times. */
    method Update(value: nat, time: nat)
      requires Valid() && (history != [] ==> Current().third.time <= time)
      modifies `history, estimates
      ensures Valid() && history == old(history) + [Sample(value, time)]
      ensures Current() == Updated(old(Current()), zero, windowLength, Sample(value, time))
      ensures var e, x := old(Current()), Sample(value, time);
              if Restarts(e, zero, windowLength, x) then Current() == Uniform(x)
              else if time - e.best.time <= windowLength then BestStays(e, windowLength, x, Current())
              else BestExpires(e, windowLength, x, Current())
      ensures time - Current().best.time <= windowLength && Current().third.time <= time
    {
      hide Tracks, BestStays, BestExpires;
      var x := Sample(value, time);
      UpdatedTracks(history, Current(), zero, windowLength, x);
      OrderedOnceUsed(history, Current(), zero);
      UpdateCases(Current(), zero, windowLength, x);
      history := history + [x];
      if estimates[0].value == zero || value >= estimates[0].value || time - estimates[2].time > windowLength {
        estimates[2] := x; estimates[1] := x; estimates[0] := x;
        return;
      }
      if value >= estimates[1].value {
        estimates[1] := x;
        estimates[2] := estimates[1];
      } else if value >= estimates[2].value {
        estimates[2] := x;
      }
      if time - estimates[0].time > windowLength {
        estimates[0] := estimates[1];
        estimates[1] := estimates[2];
        estimates[2] := x;
        if time - estimates[0].time > windowLength {
          estimates[0] := estimates[1];
          estimates[1] := estimates[2];
        }
        return;
      }
      if estimates[1].value == estimates[0].value && time - estimates[1].time > windowLength / 4 {
        estimates[1] := x;
        estimates[2] := x;
        return;
      }
      if estimates[2].value == estimates[1].value && time - estimates[2].time > windowLength / 2 {
        estimates[2] := x;
      }
    }

    method SetWindowLength(length: nat)
      requires Valid()
      modifies `windowLength
      ensures Valid() && windowLength == length
    {
      windowLength := length;
    }
  }

  function UpdatedAll(samples: seq<Sample>, zero: nat, window: nat): Estimates {
    if samples == [] then Uniform(Sample(zero, 0))
    else
      var n := |samples| - 1;
      Updated(UpdatedAll(samples[..n], zero, window), zero, window, samples[n])
  }

  ghost predicate InOrder(samples: seq<Sample>) {
    forall i, j :: 0 <= i <= j < |samples| ==> samples[i].time <= samples[j].time
  }

  /** After every run, the best estimate is a sample of the last window, and leads. */
  lemma {:induction false} RunTracks(samples: seq<Sample>, zero: nat, window: nat)
    requires InOrder(samples)
    ensures var e := UpdatedAll(samples, zero, window);
            && Tracks(samples, e, zero)
            && (samples != [] ==>
                var now := samples[|samples| - 1].time;
                now - e.best.time <= window && e.third.time <= now && Leads(samples, e.best))
  {
    if samples != [] {
      var n := |samples| - 1;
      RunTracks(samples[..n], zero, window);
      UpdatedTracks(samples[..n], UpdatedAll(samples[..n], zero, window), zero, window, samples[n]);
      assert samples[..n] + [samples[n]] == samples;
    }
  }

  /** A best estimate lasts exactly until a sample reaches it or it leaves the window. */
  lemma BestLasts(history: seq<Sample>, e: Estimates, zero: nat, window: nat, x: Sample)
    requires history != [] && Tracks(history, e, zero) && e.third.time <= x.time && e.best.value != zero && x != e.best
    ensures Updated(e, zero, window, x).best == e.best
            <==> x.value < e.best.value && x.time - e.best.time <= window
  {
    UpdatedTracks(history, e, zero, window, x);
  }

  /** No sample of the window before sample `m` is larger. */
  ghost predicate Tops(samples: seq<Sample>, m: nat, window: nat)
    requires m < |samples|
  {
    forall i :: 0 <= i < m && samples[m].time - samples[i].time <= window ==> samples[i].value <= samples[m].value
  }

  /** A sample that tops its window when it arrives becomes the best estimate. */
  lemma TopBecomesBest(history: seq<Sample>, e: Estimates, window: nat, x: Sample)
    requires Tracks(history, e, 0) && (history != [] ==> e.third.time <= x.time)
    requires forall i :: 0 <= i < |history| && x.time - history[i].time <= window ==> history[i].value <= x.value
    ensures Updated(e, 0, window, x).best == x
  {
    if history != [] {
      LeadsIsIn(history, e.best);
      LeadsIsIn(history, e.second);
      LeadsIsIn(history, e.third);
    }
  }

  lemma LeadsIsIn(history: seq<Sample>, e: Sample)
    requires Leads(history, e)
    ensures exists i :: 0 <= i < |history| && history[i] == e
  {
  }

  /** A sample that tops its window when it arrives stays the best estimate, or gives way to a later
      one of its value, as long as no larger sample comes and it has not left the window.  So the
      best estimate falls short of the window's maximum only if a larger sample, which has left the
      window since, was there when that maximum came. */
  lemma {:induction false} TopStaysBest(samples: seq<Sample>, window: nat, m: nat)
    requires InOrder(samples) && m < |samples| && Tops(samples, m, window)
    requires forall i :: m < i < |samples| ==> samples[i].value <= samples[m].value
    requires samples[|samples| - 1].time - samples[m].time <= window
    ensures var best := UpdatedAll(samples, 0, window).best;
            best.value == samples[m].value && best.time >= samples[m].time
  {
    hide Updated, Tracks, InOrder;
    var n := |samples| - 1;
    var before := UpdatedAll(samples[..n], 0, window);
    PrefixInOrder(samples, n);
    RunTracks(samples[..n], 0, window);
    if m == n {
      TopBecomesBest(samples[..n], before, window, samples[n]);
    } else {
      TopStaysBest(samples[..n], window, m);
      UpdatedTracks(samples[..n], before, 0, window, samples[n]);
    }
  }

  ghost predicate Largest(samples: seq<Sample>, s: Sample) {
    s in samples && forall i :: 0 <= i < |samples| ==> samples[i].value <= s.value
  }

  lemma {:induction false} SomeLargest(samples: seq<Sample>) returns (m: nat)
    requires samples != []
    ensures m < |samples| && Largest(samples, samples[m])
  {
    m := |samples| - 1;
    if m > 0 {
      var k := SomeLargest(samples[..m]);
      assert forall i :: 0 <= i < m ==> samples[i] == samples[..m][i];
      if samples[m].value < samples[k].value {
        m := k;
      }
    }
  }

  /** As long as all samples fit into one window, the best estimate is the largest sample. */
  lemma FirstWindowIsExact(samples: seq<Sample>, window: nat)
    requires InOrder(samples) && samples != []
    requires samples[|samples| - 1].time - samples[0].time <= window
    ensures Largest(samples, UpdatedAll(samples, 0, window).best)
  {
    hide UpdatedAll;
    var m := SomeLargest(samples);
    TopStaysBest(samples, window, m);
    RunTracks(samples, 0, window);
    LeadsIsIn(samples, UpdatedAll(samples, 0, window).best);
  }

  lemma PrefixInOrder(samples: seq<Sample>, n: nat)
    requires InOrder(samples) && n < |samples|
    ensures InOrder(samples[..n]) && (n > 0 ==> samples[n - 1].time <= samples[n].time)
  {
  }

  /** The best estimate need not be the largest sample of the window: here the sample 50 of time 101
      has been forgotten by time 127, with a window of 100. */
  lemma ForgetsALargerSample()
    ensures var samples := [Sample(100, 0), Sample(90, 26), Sample(50, 101), Sample(1, 102), Sample(1, 127)];
            UpdatedAll(samples, 0, 100).best == Sample(1, 127)
  {
    var s := [Sample(100, 0), Sample(90, 26), Sample(50, 101), Sample(1, 102), Sample(1, 127)];
    assert s[..4][..3] == s[..3] && s[..3][..2] == s[..2] && s[..2][..1] == s[..1];
    assert UpdatedAll(s[..1], 0, 100) == Uniform(Sample(100, 0));
    assert UpdatedAll(s[..2], 0, 100) == Estimates(Sample(100, 0), Sample(90, 26), Sample(90, 26));
    assert UpdatedAll(s[..3], 0, 100) == Estimates(Sample(90, 26), Sample(90, 26), Sample(50, 101));
    assert UpdatedAll(s[..4], 0, 100) == Estimates(Sample(90, 26), Sample(1, 102), Sample(1, 102));
    assert UpdatedAll(s, 0, 100) == Uniform(Sample(1, 127));
  }
}
