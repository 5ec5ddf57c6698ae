/** The BBR congestion controller: a state machine over Startup, Drain, ProbeBw and ProbeRtt, with a
    recovery window beside it.  What the samplers, the filters, the clock and the random source
    deliver at an event is part of the event. */
module BbrController {
  import opened Wrappers
  import opened Bandwidths
  import opened StartupDetection

  type Time = int

  const STARTUP_GAIN: real := 2.885
  const PROBE_BW_GAIN: real := 2.0
  const LARGE_PROBE_RTT_GAIN: real := 0.75
  const PROBE_RTT_DURATION: Time := 200_000
  const MIN_CWND_IN_MSS: nat := 4
  const QUANTA_FACTOR: nat := 3
  const MAX_SEND_QUANTUM: nat := 64 * 1024
  const CYCLES: nat := 8
  const BACKGROUND_CYCLES: nat := 32
  const LOW_PACING_RATE: Bandwidth := Bandwidth(1200 * 1000, 1_000_000)
  const HIGH_PACING_RATE: Bandwidth := Bandwidth(24, 1)

  datatype State = Startup | Drain | ProbeBw | ProbeRtt
  datatype Recovery = NotRecovery | Conservative | Growth

  /** What the bandwidth sampler and the round-trip sampler say. */
  datatype Estimates = Estimates(bandwidth: Bandwidth, minRtt: nat)

  datatype Ack = Ack(
    ackedBytes: nat,
    implicit: bool,
    newlyAcked: bool,         // some packet was newly acknowledged
    ackTime: Time,
    sentTime: Time,           // when the largest newly acknowledged packet was sent
    appLimited: bool,         // that packet was sent while limited by the application
    minRttUpdated: bool,
    minRttExpired: bool,
    excessiveBytes: nat,      // bytes beyond the expected rate, from ack aggregation
    maxAckHeight: nat,
    totalBytesAcked: nat)

  datatype Loss = Loss(lostBytes: nat, persistent: bool)

  function AckedBytes(ack: Option<Ack>): nat { if ack.Some? then ack.value.ackedBytes else 0 }

  function LostBytes(loss: Option<Loss>): nat { if loss.Some? then loss.value.lostBytes else 0 }

  /** One packet at low rates, two at middling ones, and a millisecond's worth up to 64 KiB beyond. */
  ghost predicate QuantumFor(packetLen: nat, pacingRate: Bandwidth, quantum: nat) {
    && (pacingRate.Rate() < 1.2 ==> quantum == packetLen)
    && (1.2 <= pacingRate.Rate() < 24.0 ==> quantum == 2 * packetLen)
    && (24.0 <= pacingRate.Rate() ==> quantum == Min(pacingRate.Over(1000), 0x1_0000))
  }

  datatype Settings = Settings(
    packetLen: nat,
    initCwndInMss: nat,
    maxCwndInMss: nat,
    conservativeRecovery: bool,
    largeProbeRttCwnd: bool,
    enableAckAggregationInStartup: bool,
    probeRttDisabledIfAppLimited: bool,
    drainToTarget: bool)
  {
    function Floor(): nat { MIN_CWND_IN_MSS * packetLen }

    function Ceiling(): nat { maxCwndInMss * packetLen }

    /** `boundedCwnd`: the nearest window within the bounds. */
    function Bounded(cwnd: nat): (r: nat)
      ensures InBounds(r) && (InBounds(cwnd) ==> r == cwnd)
      ensures cwnd <= 4 * packetLen ==> r == 4 * packetLen
      ensures cwnd > r ==> r == Max(maxCwndInMss * packetLen, 4 * packetLen)
    {
      Max(Min(cwnd, Ceiling()), Floor())
    }

    predicate InBounds(cwnd: nat) {
      4 * packetLen <= cwnd <= Max(maxCwndInMss * packetLen, 4 * packetLen)
    }

    /** `calculateTargetCwnd`. */
    function Target(gain: real, quantum: nat, e: Estimates): nat {
      if gain < 0.0 then 0
      else if !e.bandwidth.IsSet() || e.minRtt == 0 then
        (gain * (packetLen * initCwndInMss) as real).Floor
      else
        (e.bandwidth.Over(e.minRtt) as real * gain + (QUANTA_FACTOR * quantum) as real).Floor
    }

    /** The window of ProbeRtt. */
    function ProbeRttWindow(quantum: nat, e: Estimates): (r: nat)
      ensures InBounds(r)
      ensures !largeProbeRttCwnd ==> r == 4 * packetLen
      ensures largeProbeRttCwnd ==> r == Bounded(Target(0.75, quantum, e))
    {
      if largeProbeRttCwnd then Bounded(Target(LARGE_PROBE_RTT_GAIN, quantum, e)) else Floor()
    }
  }

  function Min(a: nat, b: nat): (r: nat)
    ensures r <= a && r <= b && (r == a || r == b)
  {
    if a <= b then a else b
  }

  function Max(a: nat, b: nat): (r: nat)
    ensures r >= a && r >= b && (r == a || r == b)
  {
    if a >= b then a else b
  }

  ghost predicate IsFloor(n: nat, x: real) { n as real <= x < n as real + 1.0 }

  /** The target is the rate times the round trip, rounded down, times the gain, and three send quanta,
      rounded down; without an estimate, the initial window times the gain. */
  lemma TargetMeaning(st: Settings, gain: real, quantum: nat, e: Estimates)
    requires gain >= 0.0
    ensures var target := st.Target(gain, quantum, e);
            if e.bandwidth.Rate() > 0.0 && e.minRtt > 0 then
              var pipe := e.bandwidth.Rate() * e.minRtt as real;
              exists bdp :: IsFloor(bdp, pipe) && IsFloor(target, bdp as real * gain + 3.0 * quantum as real)
            else
              IsFloor(target, gain * (st.packetLen * st.initCwndInMss) as real)
  {
    hide Bandwidth.Over;
    if e.bandwidth.IsSet() && e.minRtt > 0 {
      var bdp := e.bandwidth.Over(e.minRtt);
      hide Bandwidth.Rate;
      OverMeaning(e.bandwidth, e.minRtt);
      assert IsFloor(bdp, e.bandwidth.Rate() * e.minRtt as real);
      assert (QUANTA_FACTOR * quantum) as real == 3.0 * quantum as real;
    }
  }

  /** The fields of the controller that an acknowledgement may change, and what it looks at. */
  datatype Snapshot = Snapshot(
    inflightBytes: nat,
    state: State,
    recovery: Recovery,
    recoveryWindow: nat,
    endOfRecovery: Option<Time>,
    pacingGain: real,
    cwndGain: real,
    roundTrips: nat,
    endOfRoundTrip: Time,
    cwnd: nat,
    sendQuantum: nat,
    pacingCycleIndex: nat,
    cycleStart: Time,
    earliestExit: Option<Time>,
    probeRttRound: Option<nat>,
    appLimitedSinceProbeRtt: bool,
    exitingQuiescence: bool,
    factor: real)
  {
    /** Whether an acknowledgement is handled in ProbeRtt. */
    ghost predicate Probes(st: Settings, ack: Ack) {
      || state == ProbeRtt
      || (ack.minRttExpired && !exitingQuiescence
          && (st.probeRttDisabledIfAppLimited ==> !appLimitedSinceProbeRtt || ack.minRttUpdated))
    }

    /** A round starts with the acknowledgement of a packet sent after the last one started. */
    predicate NewRound(ack: Ack) { ack.sentTime > endOfRoundTrip }

    /** Whether little enough is in flight to leave Drain. */
    ghost predicate Drained(st: Settings, e: Estimates) {
      inflightBytes <= st.Target(1.0, sendQuantum, e)
    }

    /** Little enough is in flight for ProbeRtt to count. */
    ghost predicate Low(st: Settings, e: Estimates) {
      inflightBytes < st.ProbeRttWindow(sendQuantum, e) + st.packetLen
    }

    /** ProbeRtt is over: its clock has run out and a round has started since. */
    ghost predicate ProbeRttOver(ack: Ack) {
      && state == ProbeRtt && earliestExit.Some? && earliestExit.value <= ack.ackTime
      && (probeRttRound.Some? || NewRound(ack))
    }

    /** The state after an acknowledgement: ProbeRtt is entered and left as said, and otherwise Startup lasts
        until the bottleneck is found and Drain as long as too much is in flight. */
    ghost predicate StateAfter(st: Settings, found: bool, ack: Ack, e: Estimates, after: State) {
      after == if ProbeRttOver(ack) then (if found then ProbeBw else Startup)
               else if Probes(st, ack) then ProbeRtt
               else Through(state, found, Drained(st, e))
    }

    /** The clock of ProbeRtt starts with the first acknowledgement that finds little in flight, and notes
        the first round after that. */
    ghost predicate ClockAfter(st: Settings, ack: Ack, e: Estimates, rounds: nat, exit: Option<Time>, round: Option<nat>) {
      var exit0, round0 := if state == ProbeRtt then earliestExit else None, if state == ProbeRtt then probeRttRound else None;
      if !Probes(st, ack) then exit == earliestExit && round == probeRttRound
      else if exit0 == None && Low(st, e) then exit == Some(ack.ackTime + 200_000) && round == None
      else exit == exit0 && round == if exit0.Some? && round0 == None && NewRound(ack) then Some(rounds) else round0
    }

    lemma OutsideProbeRtt(st: Settings, found: bool, ack: Ack, e: Estimates)
      requires !Probes(st, ack)
      ensures StateAfter(st, found, ack, e, Through(state, found, Drained(st, e)))
      ensures forall rounds :: ClockAfter(st, ack, e, rounds, earliestExit, probeRttRound)
    {
    }

    /** What ProbeRtt does with an acknowledgement, given its clock when it comes to handle it. */
    lemma InProbeRtt(st: Settings, found: bool, ack: Ack, e: Estimates, rounds: nat, exit: Option<Time>, round: Option<nat>)
      requires Probes(st, ack)
      requires exit == (if state == ProbeRtt then earliestExit else None)
      requires round == (if state == ProbeRtt then probeRttRound else None)
      ensures exit == None && Low(st, e) ==>
        && StateAfter(st, found, ack, e, ProbeRtt)
        && ClockAfter(st, ack, e, rounds, Some(ack.ackTime + 200_000), None)
      ensures !(exit == None && Low(st, e)) ==>
        var round' := if exit.Some? && round == None && NewRound(ack) then Some(rounds) else round;
        && ClockAfter(st, ack, e, rounds, exit, round')
        && if exit.Some? && round'.Some? && exit.value <= ack.ackTime
           then state == ProbeRtt && StateAfter(st, found, ack, e, if found then ProbeBw else Startup)
           else StateAfter(st, found, ack, e, ProbeRtt)
    {
    }

    ghost predicate AppLimitedAfter(st: Settings, ack: Ack, appLimited: bool) {
      appLimited <==> appLimitedSinceProbeRtt && !ack.minRttUpdated && (state == ProbeRtt || !Probes(st, ack))
    }

    /** Recovery ends exactly when a packet sent after the last loss is acknowledged; until then the window
        grows to what is in flight and what was acknowledged, and in Growth by what was acknowledged. */
    ghost predicate RecoveryAfter(st: Settings, ack: Ack, newRecovery: Recovery, newWindow: nat) {
      if recovery == NotRecovery || endOfRecovery == None || ack.sentTime > endOfRecovery.value then
        newRecovery == NotRecovery && newWindow == recoveryWindow
      else
        && newRecovery == (if NewRound(ack) then Growth else recovery)
        && newWindow == st.Bounded(Max(
             recoveryWindow + (if newRecovery == Growth then ack.ackedBytes else 0),
             inflightBytes + (if st.conservativeRecovery then st.packetLen else ack.ackedBytes)))
    }

    /** When a pacing cycle is over: a round trip has passed and probing for bandwidth has filled the
        pipe or met a loss, or draining the queue is complete. */
    ghost predicate CycleOver(st: Settings, ack: Ack, e: Estimates, prevInflightBytes: nat, hasLoss: bool) {
      || (ack.ackTime - cycleStart > e.minRtt
          && (pacingGain > 1.0 ==> hasLoss || prevInflightBytes >= st.Target(pacingGain, sendQuantum, e)))
      || (factor >= 1.0 && pacingGain < 1.0 && inflightBytes <= st.Target(1.0, sendQuantum, e))
    }

    /** A queue that was to be drained is still there, and the setting says to go on. */
    ghost predicate GoesOnDraining(st: Settings, e: Estimates, nextGain: real) {
      && factor >= 1.0 && st.drainToTarget && pacingGain < 1.0 && nextGain == 1.0
      && inflightBytes > st.Target(1.0, sendQuantum, e)
    }

    /** A cycle that is over makes way for the next, whose gain is taken over unless draining goes on. */
    ghost predicate CycleAfter(st: Settings, cycles: seq<real>, ack: Ack, e: Estimates, prevInflightBytes: nat,
                               hasLoss: bool, index: nat, start: Time, gain: real)
    {
      if CycleOver(st, ack, e, prevInflightBytes, hasLoss) then
        && index < |cycles| && index == (pacingCycleIndex + 1) % |cycles| && start == ack.ackTime
        && gain == if GoesOnDraining(st, e, cycles[index]) then pacingGain else cycles[index]
      else
        index == pacingCycleIndex && start == cycleStart && gain == pacingGain
    }

    /** What an acknowledgement has done before any change of state. */
    ghost predicate TakenAs(st: Settings, cycles: seq<real>, ack: Ack, e: Estimates, prevInflightBytes: nat,
                            hasLoss: bool, now: Time, c: Snapshot)
    {
      && c.roundTrips == roundTrips + (if NewRound(ack) then 1 else 0)
      && c.endOfRoundTrip == (if NewRound(ack) then now else endOfRoundTrip)
      && RecoveryAfter(st, ack, c.recovery, c.recoveryWindow)
      && if state != ProbeBw then c.pacingGain == pacingGain
         else CycleAfter(st, cycles, ack, e, prevInflightBytes, hasLoss, c.pacingCycleIndex, c.cycleStart, c.pacingGain)
    }

    /** What an acknowledgement does to the window.  ProbeRtt leaves it alone.  Once the bottleneck is known
        it grows by what was acknowledged, but not beyond the target and what aggregated acknowledgements
        have added; until then it grows by what was acknowledged while it is below the target or not even
        the initial window has been acknowledged. */
    ghost predicate WindowAfter(st: Settings, found: bool, target: nat, ack: Ack, excessiveBytes: nat, newCwnd: nat) {
      if found then newCwnd == st.Bounded(Min(cwnd + ack.ackedBytes, target + ack.maxAckHeight))
      else
        var aggregated := if st.enableAckAggregationInStartup then excessiveBytes else 0;
        var grows := cwnd < target + aggregated || ack.totalBytesAcked < st.packetLen * st.initCwndInMss;
        newCwnd == st.Bounded(cwnd + if grows then ack.ackedBytes else 0)
    }

    /** What a loss leaves: recovery starts from what is in flight; every loss takes its bytes away, down
        to the floor. */
    ghost function AfterLoss(st: Settings, loss: Loss, ackedBytes: nat, now: Time): Snapshot {
      var first := recovery == NotRecovery;
      var start := if first then st.Bounded(inflightBytes + ackedBytes) else recoveryWindow;
      this.(recovery := if first then Conservative else recovery,
            endOfRecovery := Some(now),
            endOfRoundTrip := if first then now else endOfRoundTrip,
            recoveryWindow := if loss.persistent then 4 * st.packetLen
                              else Max(start - Min(start, loss.lostBytes), 4 * st.packetLen))
    }

    /** The controller as an acknowledgement finds it: what was acknowledged and lost is no longer in
        flight, and a loss has been dealt with. */
    ghost function Prepared(st: Settings, ack: Option<Ack>, loss: Option<Loss>, now: Time): Snapshot
      requires AckedBytes(ack) + LostBytes(loss) <= inflightBytes
    {
      var c := this.(inflightBytes := inflightBytes - AckedBytes(ack) - LostBytes(loss));
      if loss.Some? then c.AfterLoss(st, loss.value, AckedBytes(ack), now) else c
    }
  }

  /** The state after Startup and Drain were considered. */
  ghost function Through(state: State, found: bool, drained: bool): State
    requires state != ProbeRtt
  {
    if state == Startup && !found then Startup else if state == ProbeBw || drained then ProbeBw else Drain
  }

  /** One explicit acknowledgement: when it came and whether it started a round, the bytes in flight,
      the window of ProbeRtt and the length of a packet then, the state that handled it and the state
      it led to. */
  datatype Record = Record(
    time: Time, newRound: bool, inflight: nat, window: nat, packetLen: nat, handled: State, after: State)
  {
    predicate Probing() { handled == ProbeRtt }

    /** Little enough is in flight for ProbeRtt to count. */
    predicate LowInflight() { Probing() && inflight < window + packetLen }

    predicate Leaves() { Probing() && after != ProbeRtt }
  }

  /** ProbeRtt ends with acknowledgement `j` only if, in the same stay, acknowledgement `a` found few
      bytes in flight, at least the probing time before, and a later one, `b`, started a new round. */
  ghost predicate StayedLongEnough(log: seq<Record>, a: nat, b: nat, j: nat) {
    && a < b <= j < |log|
    && log[a].LowInflight() && log[b].newRound && log[a].time + 200_000 <= log[j].time
    && forall i :: a <= i <= j ==> log[i].Probing() && (log[i].Leaves() <==> i == j)
  }

  ghost predicate Disciplined(log: seq<Record>) {
    forall j :: 0 <= j < |log| && log[j].Leaves() ==> exists a, b :: StayedLongEnough(log, a, b, j)
  }

  /** What the log says while ProbeRtt lasts. */
  ghost predicate Staying(
    log: seq<Record>, earliestExit: Option<Time>, probeRttRound: Option<nat>, lowAt: nat, roundAt: nat)
  {
    && (probeRttRound.Some? ==> earliestExit.Some? && lowAt < roundAt < |log| && log[roundAt].newRound)
    && (earliestExit.Some? ==>
        && lowAt < |log| && log[lowAt].LowInflight()
        && earliestExit.value == log[lowAt].time + PROBE_RTT_DURATION
        && forall i :: lowAt <= i < |log| ==> log[i].Probing() && !log[i].Leaves())
  }

  class Bbr {
    const settings: Settings
    const startCwnd: nat
    var inflightBytes: nat
    var state: State
    var recovery: Recovery
    var pacingGain: real
    var cwndGain: real
    var btlbwFound: bool
    var previousStartupBandwidth: Bandwidth
    var slowStartupRounds: nat
    var roundTrips: nat
    var endOfRoundTrip: Time
    var endOfRecovery: Option<Time>
    var cwnd: nat
    var recoveryWindow: nat
    var numOfCycles: nat
    var pacingGainCycles: seq<real>
    var factor: real
    var sendQuantum: nat
    var pacingCycleIndex: nat
    var cycleStart: Time
    var earliestExit: Option<Time>
    var probeRttRound: Option<nat>
    var appLimitedSinceProbeRtt: bool
    var exitingQuiescence: bool
    ghost var estimates: seq<Bandwidth>   // the estimates of the rounds that were not app-limited
    ghost var log: seq<Record>            // the explicit acknowledgements
    ghost var lowAt: nat                  // in the current stay in ProbeRtt: where the clock started
    ghost var roundAt: nat                // and where a round started after that

    predicate Background()
      reads `factor
    {
      factor < 1.0
    }

    predicate InRecovery()
      reads `recovery
    {
      recovery != NotRecovery
    }

    /** The windows are bounded; only the window the controller started with may lie outside. */
    ghost predicate Windows()
      reads `cwnd, `recovery, `recoveryWindow, `endOfRecovery
    {
      && (settings.InBounds(cwnd) || cwnd == startCwnd)
      && (InRecovery() ==> settings.InBounds(recoveryWindow) && endOfRecovery.Some?)
    }

    ghost predicate Cycles()
      reads `numOfCycles, `pacingGainCycles, `factor
    {
      && 0.25 <= factor <= 1.0
      && |pacingGainCycles| == numOfCycles == (if Background() then 32 else 8)
      && pacingGainCycles[0] == 1.25 && pacingGainCycles[1] == 0.75
      && forall i :: 2 <= i < numOfCycles ==> pacingGainCycles[i] == factor
    }

    ghost predicate Gains()
      reads `state, `pacingGain, `cwndGain, `factor
    {
      && pacingGain > 0.0 && cwndGain > 0.0
      && match state
         case Startup => pacingGain == cwndGain == if Background() then 1.4425 else 2.885
         case Drain => pacingGain == 1.0 / 2.885 || pacingGain == 1.4425
         case ProbeBw => 0.25 <= pacingGain <= 1.25 && cwndGain == 2.0
         case ProbeRtt => pacingGain == 1.0
    }

    /** Startup is for a bottleneck that has not been found, Drain and ProbeBw for one that has; ProbeRtt
        is for either. */
    ghost predicate Phase()
      reads `state, `btlbwFound
    {
      && (state == Startup ==> !btlbwFound)
      && (state == Drain || state == ProbeBw ==> btlbwFound)
    }

    ghost predicate Detection()
      reads `btlbwFound, `previousStartupBandwidth, `slowStartupRounds, `estimates
    {
      Detector(previousStartupBandwidth, slowStartupRounds, btlbwFound) == DetectAll(estimates)
    }

    ghost predicate Probing()
      reads `state, `earliestExit, `probeRttRound, `log, `lowAt, `roundAt
    {
      && Disciplined(log)
      && (state == ProbeRtt ==> Staying(log, earliestExit, probeRttRound, lowAt, roundAt))
    }

    ghost predicate Valid()
      reads this
    {
      Windows() && Cycles() && Gains() && Phase() && Detection() && Probing()
    }

    constructor (settings: Settings, cwndBytes: nat)
      ensures Valid() && this.settings == settings && GetCongestionWindow(Estimates(Bandwidth(0, 0), 0)) == cwndBytes
      ensures View() == Snapshot(0, Startup, NotRecovery, settings.maxCwndInMss * settings.packetLen, None, 2.885, 2.885,
                                 0, 0, cwndBytes, 0, 0, 0, None, None, false, false, 1.0)
      ensures estimates == [] && log == []
    {
      this.settings, startCwnd := settings, cwndBytes;
      inflightBytes, state, recovery := 0, Startup, NotRecovery;
      pacingGain, cwndGain := STARTUP_GAIN, STARTUP_GAIN;
      btlbwFound, previousStartupBandwidth, slowStartupRounds := false, Bandwidth(0, 0), 0;
      roundTrips, endOfRoundTrip, endOfRecovery := 0, 0, None;
      cwnd, recoveryWindow := cwndBytes, settings.packetLen * settings.maxCwndInMss;
      numOfCycles, pacingGainCycles, factor := CYCLES, [1.25, 0.75, 1.0, 1.0, 1.0, 1.0, 1.0, 1.0], 1.0;
      sendQuantum, pacingCycleIndex, cycleStart := 0, 0, 0;
      earliestExit, probeRttRound := None, None;
      appLimitedSinceProbeRtt, exitingQuiescence := false, false;
      estimates, log := [], [];
    }

    ghost function View(): Snapshot
      reads this
    {
      Snapshot(inflightBytes, state, recovery, recoveryWindow, endOfRecovery, pacingGain, cwndGain, roundTrips,
               endOfRoundTrip, cwnd, sendQuantum, pacingCycleIndex, cycleStart, earliestExit, probeRttRound,
               appLimitedSinceProbeRtt, exitingQuiescence, factor)
    }

    function TargetCwnd(gain: real, e: Estimates): nat
      reads `sendQuantum
    {
      settings.Target(gain, sendQuantum, e)
    }

    function GetCongestionWindow(e: Estimates): (r: nat)
      requires Windows()
      reads this
      ensures settings.InBounds(r) || (state != ProbeRtt && r == startCwnd)
      ensures state == ProbeRtt ==> r == settings.ProbeRttWindow(sendQuantum, e)
      ensures state != ProbeRtt && !InRecovery() ==> r == cwnd
      ensures state != ProbeRtt && InRecovery() ==>
        r <= cwnd && r <= recoveryWindow && (r == cwnd || r == recoveryWindow)
    {
      if state == ProbeRtt then
        settings.ProbeRttWindow(sendQuantum, e)
      else if InRecovery() then Min(cwnd, recoveryWindow)
      else cwnd
    }

    /** Never lets more than the window into flight. */
    function GetWritableBytes(e: Estimates): (r: nat)
      requires Windows()
      reads this
      ensures r > 0 ==> inflightBytes + r == GetCongestionWindow(e)
      ensures r == 0 <==> GetCongestionWindow(e) <= inflightBytes
    {
      if GetCongestionWindow(e) > inflightBytes then GetCongestionWindow(e) - inflightBytes else 0
    }

    method OnPacketSent(bytes: nat, appLimited: bool)
      requires Valid()
      modifies `inflightBytes, `exitingQuiescence
      ensures Valid() && inflightBytes == old(inflightBytes) + bytes
      ensures exitingQuiescence <==> old(exitingQuiescence) || (old(inflightBytes) == 0 && appLimited)
    {
      hide Bbr.Windows, Bbr.Cycles, Bbr.Gains, Bbr.Phase, Bbr.Detection, Bbr.Probing;
      if inflightBytes == 0 && appLimited {
        exitingQuiescence := true;
      }
      inflightBytes := inflightBytes + bytes;
    }

    /** Fails, leaving everything as it is, if more bytes are taken out of flight than there are. */
    method OnRemoveBytesFromInflight(bytes: nat) returns (ok: bool)
      modifies `inflightBytes
      ensures ok <==> bytes <= old(inflightBytes)
      ensures inflightBytes == old(inflightBytes) - if ok then bytes else 0
    {
      ok := bytes <= inflightBytes;
      if ok { inflightBytes := inflightBytes - bytes; }
    }

    /** Recovery starts from what is in flight; every loss takes its bytes away, down to the floor. */
    method OnPacketLoss(loss: Loss, ackedBytes: nat, now: Time)
      requires Windows()
      modifies `endOfRecovery, `recovery, `recoveryWindow, `endOfRoundTrip
      ensures Windows() && InRecovery() && endOfRecovery == Some(now)
      ensures recovery == if old(InRecovery()) then old(recovery) else Conservative
      ensures endOfRoundTrip == if old(InRecovery()) then old(endOfRoundTrip) else now
      ensures loss.persistent ==> recoveryWindow == 4 * settings.packetLen
      ensures !loss.persistent ==>
        var start := if old(InRecovery()) then old(recoveryWindow) else settings.Bounded(inflightBytes + ackedBytes);
        recoveryWindow == Max(start - Min(start, loss.lostBytes), 4 * settings.packetLen)
    {
      hide Settings.Bounded, Settings.InBounds, Max, Min;
      endOfRecovery := Some(now);
      if !InRecovery() {
        recovery := Conservative;
        recoveryWindow := inflightBytes + ackedBytes;
        recoveryWindow := settings.Bounded(recoveryWindow);
        endOfRoundTrip := now;
      }
      LossShrinks(settings, recoveryWindow, loss.lostBytes);
      if recoveryWindow > loss.lostBytes + settings.packetLen * MIN_CWND_IN_MSS {
        recoveryWindow := recoveryWindow - loss.lostBytes;
      } else {
        recoveryWindow := settings.packetLen * MIN_CWND_IN_MSS;
      }
      if loss.persistent {
        recoveryWindow := settings.packetLen * MIN_CWND_IN_MSS;
      }
    }

    method UpdateRoundTripCounter(sentTime: Time, now: Time) returns (newRound: bool)
      modifies `roundTrips, `endOfRoundTrip
      ensures newRound <==> sentTime > old(endOfRoundTrip)
      ensures roundTrips == old(roundTrips) + if newRound then 1 else 0
      ensures endOfRoundTrip == if newRound then now else old(endOfRoundTrip)
    {
      newRound := sentTime > endOfRoundTrip;
      if newRound {
        roundTrips, endOfRoundTrip := roundTrips + 1, now;
      }
    }

    method UpdateRecoveryWindowWithAck(bytesAcked: nat)
      requires settings.InBounds(recoveryWindow)
      modifies `recoveryWindow
      ensures settings.InBounds(recoveryWindow) && recoveryWindow >= old(recoveryWindow)
      // Conservation: before Growth, the window follows what is in flight.
      ensures recovery != Growth && recoveryWindow > old(recoveryWindow) ==>
        recoveryWindow <= inflightBytes + (if settings.conservativeRecovery then settings.packetLen else bytesAcked)
      ensures recoveryWindow == settings.Bounded(Max(
        old(recoveryWindow) + (if recovery == Growth then bytesAcked else 0),
        inflightBytes + (if settings.conservativeRecovery then settings.packetLen else bytesAcked)))
    {
      if recovery == Growth {
        recoveryWindow := recoveryWindow + bytesAcked;
      }
      var recoveryIncrease := if settings.conservativeRecovery then settings.packetLen else bytesAcked;
      recoveryWindow := Max(recoveryWindow, inflightBytes + recoveryIncrease);
      recoveryWindow := settings.Bounded(recoveryWindow);
    }

    method RecoverOnAck(ghost b: Snapshot, ack: Ack, newRound: bool)
      requires Windows() && (newRound <==> b.NewRound(ack)) && b.inflightBytes == inflightBytes
      requires b.recovery == recovery && b.recoveryWindow == recoveryWindow && b.endOfRecovery == endOfRecovery
      modifies `recovery, `recoveryWindow
      ensures Windows() && b.RecoveryAfter(settings, ack, recovery, recoveryWindow)
    {
      hide Settings.Bounded, Settings.InBounds, Max, Min;
      if InRecovery() {
        if newRound && recovery != Growth {
          recovery := Growth;
        }
        if ack.sentTime > endOfRecovery.value {
          recovery := NotRecovery;
        } else {
          UpdateRecoveryWindowWithAck(ack.ackedBytes);
        }
      }
    }

    /** The index kept may belong to a longer cycle; the one looked up never leaves the current cycle. */
    method HandleAckInProbeBw(ghost b: Snapshot, ack: Ack, e: Estimates, prevInflightBytes: nat, hasLoss: bool)
      requires Cycles() && Gains() && state == ProbeBw && InCycleOf(b)
      requires b.inflightBytes == inflightBytes && b.sendQuantum == sendQuantum && b.factor == factor
      modifies `pacingCycleIndex, `cycleStart, `pacingGain
      ensures Gains()
      ensures b.CycleAfter(settings, pacingGainCycles, ack, e, prevInflightBytes, hasLoss,
                           pacingCycleIndex, cycleStart, pacingGain)
    {
      hide Settings.Target;
      var advance := ack.ackTime - cycleStart > e.minRtt;
      if pacingGain > 1.0 && !hasLoss && prevInflightBytes < TargetCwnd(pacingGain, e) {
        advance := false;
      }
      if !Background() && pacingGain < 1.0 && inflightBytes <= TargetCwnd(1.0, e) {
        advance := true;
      }
      if advance {
        pacingCycleIndex := (pacingCycleIndex + 1) % numOfCycles;
        cycleStart := ack.ackTime;
        if !Background() && settings.drainToTarget && pacingGain < 1.0 && pacingGainCycles[pacingCycleIndex] == 1.0
           && inflightBytes > TargetCwnd(1.0, e) {
          return;
        }
        pacingGain := pacingGainCycles[pacingCycleIndex];
      }
    }

    ghost predicate InCycleOf(b: Snapshot)
      reads `pacingCycleIndex, `cycleStart, `pacingGain
    {
      pacingCycleIndex == b.pacingCycleIndex && cycleStart == b.cycleStart && pacingGain == b.pacingGain
    }

    method DetectBottleneckBandwidth(bandwidth: Bandwidth)
      requires Detection()
      modifies `btlbwFound, `previousStartupBandwidth, `slowStartupRounds, `estimates
      ensures Detection() && estimates == old(estimates) + [bandwidth]
      ensures old(btlbwFound) ==> btlbwFound
    {
      assert (estimates + [bandwidth])[..|estimates|] == estimates;
      estimates := estimates + [bandwidth];
      if btlbwFound {
        return;
      }
      if bandwidth.Ge(previousStartupBandwidth.Times(EXPECTED_GROWTH)) {
        previousStartupBandwidth, slowStartupRounds := bandwidth, 0;
        return;
      }
      slowStartupRounds := slowStartupRounds + 1;
      if slowStartupRounds >= SLOW_ROUND_LIMIT {
        btlbwFound := true;
      }
    }

    method TransitToStartup()
      modifies `state, `pacingGain, `cwndGain
      ensures state == Startup && Gains()
    {
      state := Startup;
      if Background() {
        pacingGain, cwndGain := STARTUP_GAIN / 2.0, STARTUP_GAIN / 2.0;
      } else {
        pacingGain, cwndGain := STARTUP_GAIN, STARTUP_GAIN;
      }
    }

    /** Drain sends below the estimated rate exactly if the controller is not in background mode. */
    method TransitToDrain()
      modifies `state, `pacingGain, `cwndGain
      ensures state == Drain && Gains() && DrainGains()
      ensures pacingGain < 1.0 <==> !Background()
    {
      state := Drain;
      if Background() {
        pacingGain, cwndGain := 1.0 / 2.0 * STARTUP_GAIN, STARTUP_GAIN / 2.0;
      } else {
        pacingGain, cwndGain := 1.0 / STARTUP_GAIN, STARTUP_GAIN;
      }
    }

    ghost predicate DrainGains()
      reads `pacingGain, `cwndGain, `factor
    {
      if Background() then pacingGain == cwndGain == 1.4425 else pacingGain == 1.0 / 2.885 && cwndGain == 2.885
    }

    /** ProbeBw is entered at a random place of the cycle, but never at the draining gain. */
    ghost predicate EntersCycle(time: Time, random: nat)
      reads `state, `cwndGain, `pacingGain, `pacingCycleIndex, `cycleStart, `numOfCycles, `pacingGainCycles
    {
      && state == ProbeBw && cwndGain == 2.0 && cycleStart == time
      && pacingCycleIndex < numOfCycles == |pacingGainCycles| && pacingCycleIndex != 1
      && pacingCycleIndex == (if random + 2 < numOfCycles then random + 2 else 0)
      && pacingGain == pacingGainCycles[pacingCycleIndex]
    }

    method TransitToProbeBw(time: Time, random: nat)
      requires Cycles() && random < numOfCycles - 1
      modifies `state, `pacingGain, `cwndGain, `pacingCycleIndex, `cycleStart
      ensures Gains() && EntersCycle(time, random)
    {
      state, cwndGain := ProbeBw, PROBE_BW_GAIN;
      pacingCycleIndex := (random + 2) % numOfCycles;
      pacingGain := pacingGainCycles[pacingCycleIndex];
      cycleStart := time;
    }

    method TransitToProbeRtt()
      requires Probing() && Gains()
      modifies `state, `pacingGain, `earliestExit, `probeRttRound, `appLimitedSinceProbeRtt
      ensures state == ProbeRtt && Gains() && Probing()
      ensures earliestExit == None && probeRttRound == None && !appLimitedSinceProbeRtt
    {
      state, pacingGain := ProbeRtt, 1.0;
      earliestExit, probeRttRound := None, None;
      appLimitedSinceProbeRtt := false;
    }

    /** Closes the account of one acknowledgement that ProbeRtt did not handle. */
    ghost method LogOther(ack: Ack, e: Estimates, newRound: bool)
      requires Probing() && state != ProbeRtt
      modifies `log
      ensures Probing() && log == old(log) + [RecordOf(ack, e, newRound, state, state)]
    {
      LogGrows(log, RecordOf(ack, e, newRound, state, state), 0, 0);
      log := log + [RecordOf(ack, e, newRound, state, state)];
    }

    ghost function RecordOf(ack: Ack, e: Estimates, newRound: bool, handled: State, after: State): Record
      reads `inflightBytes, `sendQuantum
    {
      Record(ack.ackTime, newRound, inflightBytes, settings.ProbeRttWindow(sendQuantum, e), settings.packetLen,
             handled, after)
    }

    /** The first acknowledgement that finds little in flight starts the clock of ProbeRtt. */
    method StartClock(ack: Ack, e: Estimates, newRound: bool)
      requires state == ProbeRtt && Probing() && View().Low(settings, e)
      modifies `earliestExit, `probeRttRound, `log, `lowAt
      ensures Probing() && log == old(log) + [RecordOf(ack, e, newRound, ProbeRtt, ProbeRtt)]
      ensures earliestExit == Some(ack.ackTime + 200_000) && probeRttRound == None
    {
      hide Disciplined, Staying, StayedLongEnough, Settings.ProbeRttWindow;
      earliestExit, probeRttRound := Some(ack.ackTime + PROBE_RTT_DURATION), None;
      ghost var record := RecordOf(ack, e, newRound, ProbeRtt, ProbeRtt);
      ClockStarts(log, record, roundAt);
      LogGrows(log, record, 0, 0);
      log, lowAt := log + [record], |log|;
    }

    method LeaveProbeRtt(time: Time, random: nat)
      requires Cycles() && random < numOfCycles - 1
      modifies `state, `pacingGain, `cwndGain, `pacingCycleIndex, `cycleStart
      ensures state == (if btlbwFound then ProbeBw else Startup) && Gains()
      ensures if btlbwFound then EntersCycle(time, random) else unchanged(`pacingCycleIndex, `cycleStart)
    {
      if btlbwFound {
        TransitToProbeBw(time, random);
      } else {
        TransitToStartup();
      }
    }

    /** Leaves ProbeRtt as `StayedLongEnough` demands, for ProbeBw if the bottleneck is known and
        for Startup if not. */
    method HandleAckInProbeRtt(ghost b: Snapshot, ack: Ack, e: Estimates, newRound: bool, random: nat)
      requires state == ProbeRtt && Windows() && Cycles() && Gains() && Probing() && random < numOfCycles - 1
      requires b.Probes(settings, ack) && (newRound <==> b.NewRound(ack))
      requires b.inflightBytes == inflightBytes && b.sendQuantum == sendQuantum
      requires earliestExit == (if b.state == ProbeRtt then b.earliestExit else None)
      requires probeRttRound == (if b.state == ProbeRtt then b.probeRttRound else None)
      modifies `state, `pacingGain, `cwndGain, `pacingCycleIndex, `cycleStart,
               `earliestExit, `probeRttRound, `log, `lowAt, `roundAt
      ensures Gains() && Probing() && Phase()
      ensures log == old(log) + [RecordOf(ack, e, newRound, ProbeRtt, state)]
      ensures b.StateAfter(settings, btlbwFound, ack, e, state)
      ensures b.ClockAfter(settings, ack, e, roundTrips, earliestExit, probeRttRound)
      ensures state != ProbeRtt ==>
        b.state == ProbeRtt && state != Drain && (state == ProbeBw ==> EntersCycle(ack.ackTime, random))
    {
      hide Disciplined, Staying, StayedLongEnough, Settings.ProbeRttWindow, Settings.Target, Bbr.Cycles, Bbr.Windows,
           Bbr.Gains, Bbr.EntersCycle, Snapshot.StateAfter, Snapshot.ClockAfter, Snapshot.Probes;
      b.InProbeRtt(settings, btlbwFound, ack, e, roundTrips, earliestExit, probeRttRound);
      if earliestExit == None && inflightBytes < GetCongestionWindow(e) + settings.packetLen {
        StartClock(ack, e, newRound);
        return;
      }
      var leaving := KeepTime(ack, e, newRound);
      if leaving {
        LeaveProbeRtt(ack.ackTime, random);
      }
    }

    /** Notes the first round after the clock has started, and closes the account of the acknowledgement. */
    method KeepTime(ack: Ack, e: Estimates, newRound: bool) returns (leaving: bool)
      requires state == ProbeRtt && Probing()
      modifies `probeRttRound, `roundAt, `log
      ensures probeRttRound == if earliestExit.Some? && old(probeRttRound) == None && newRound then Some(roundTrips)
                               else old(probeRttRound)
      ensures leaving <==> earliestExit.Some? && probeRttRound.Some? && earliestExit.value <= ack.ackTime
      ensures Disciplined(log) && (!leaving ==> Probing())
      ensures var after := if !leaving then ProbeRtt else if btlbwFound then ProbeBw else Startup;
              log == old(log) + [RecordOf(ack, e, newRound, ProbeRtt, after)]
    {
      hide Disciplined, Staying, StayedLongEnough, Settings.ProbeRttWindow;
      ghost var round, at := probeRttRound, roundAt;
      if earliestExit.Some? && probeRttRound == None && newRound {
        probeRttRound, roundAt := Some(roundTrips), |log|;
      }
      leaving := earliestExit.Some? && probeRttRound.Some? && earliestExit.value <= ack.ackTime;
      ghost var after := if !leaving then ProbeRtt else if btlbwFound then ProbeBw else Startup;
      ghost var record := RecordOf(ack, e, newRound, ProbeRtt, after);
      StayGoesOn(log, record, earliestExit, round, at, probeRttRound, roundAt, lowAt);
      LogGrows(log, record, lowAt, roundAt);
      log := log + [record];
    }

    method UpdateSendQuantum(pacingRate: Bandwidth)
      modifies `sendQuantum
      ensures QuantumFor(settings.packetLen, pacingRate, sendQuantum)
    {
      ComparisonsFollowRates(pacingRate, LOW_PACING_RATE);
      ComparisonsFollowRates(pacingRate, HIGH_PACING_RATE);
      if pacingRate.Lt(LOW_PACING_RATE) {
        sendQuantum := settings.packetLen;
      } else if pacingRate.Lt(HIGH_PACING_RATE) {
        sendQuantum := settings.packetLen * 2;
      } else {
        sendQuantum := Min(pacingRate.Over(1000), MAX_SEND_QUANTUM);
      }
    }

    /** Outside ProbeRtt, the send quantum is that of the pacing rate, and the window moves towards the target
        for the gain; ProbeRtt leaves both alone. */
    ghost predicate WindowFollows(b: Snapshot, ack: Ack, excessiveBytes: nat, e: Estimates)
      requires pacingGain > 0.0
      reads `state, `cwnd, `sendQuantum, `cwndGain, `pacingGain, `btlbwFound
    {
      if state == ProbeRtt then cwnd == b.cwnd && sendQuantum == b.sendQuantum
      else
        && QuantumFor(settings.packetLen, e.bandwidth.Times(pacingGain), sendQuantum)
        && b.WindowAfter(settings, btlbwFound, TargetCwnd(cwndGain, e), ack, excessiveBytes, cwnd)
    }

    method UpdateCwnd(ghost b: Snapshot, ack: Ack, excessiveBytes: nat, e: Estimates)
      requires Windows() && Gains()
      requires b.cwnd == cwnd && b.sendQuantum == sendQuantum
      modifies `cwnd, `sendQuantum
      ensures Windows() && WindowFollows(b, ack, excessiveBytes, e)
      ensures state != ProbeRtt || settings.InBounds(old(cwnd)) ==> settings.InBounds(cwnd)
    {
      hide Settings.Target, Settings.Bounded, Settings.InBounds, Bandwidth.Times, QuantumFor, Min;
      if state == ProbeRtt {
        return;
      }
      UpdateSendQuantum(e.bandwidth.Times(pacingGain));
      var target := TargetCwnd(cwndGain, e);
      if btlbwFound {
        target := target + ack.maxAckHeight;
      } else if settings.enableAckAggregationInStartup {
        target := target + excessiveBytes;
      }
      MoveCwnd(target, ack);
    }

    /** Towards a target. */
    method MoveCwnd(target: nat, ack: Ack)
      modifies `cwnd
      ensures settings.InBounds(cwnd)
      ensures btlbwFound ==> cwnd == settings.Bounded(Min(old(cwnd) + ack.ackedBytes, target))
      ensures !btlbwFound ==>
        var grows := old(cwnd) < target || ack.totalBytesAcked < settings.packetLen * settings.initCwndInMss;
        cwnd == settings.Bounded(old(cwnd) + if grows then ack.ackedBytes else 0)
    {
      if btlbwFound {
        cwnd := Min(target, cwnd + ack.ackedBytes);
      } else if cwnd < target || ack.totalBytesAcked < settings.packetLen * settings.initCwndInMss {
        cwnd := cwnd + ack.ackedBytes;
      }
      cwnd := settings.Bounded(cwnd);
    }

    predicate ShouldProbeRtt(ack: Ack)
      reads `appLimitedSinceProbeRtt, `state, `exitingQuiescence
    {
      if settings.probeRttDisabledIfAppLimited && appLimitedSinceProbeRtt then false
      else state != ProbeRtt && !exitingQuiescence && ack.minRttExpired
    }

    /** The gains and the place in the cycle change with the state only. */
    ghost predicate GainsFollow(c: Snapshot, time: Time, random: nat)
      reads `state, `cwndGain, `pacingGain, `pacingCycleIndex, `cycleStart, `numOfCycles, `pacingGainCycles, `factor
    {
      && (state == c.state != ProbeRtt ==> InCycleOf(c) && cwndGain == c.cwndGain)
      && (state == Drain != c.state ==> DrainGains())
      && (state == ProbeBw != c.state ==> EntersCycle(time, random))
    }

    /** Out of Startup and Drain, and into ProbeRtt. */
    method Advance(ack: Ack, e: Estimates, newRound: bool, random: nat)
      requires Cycles() && Gains() && Phase() && Detection() && Probing() && random < numOfCycles - 1
      modifies `state, `pacingGain, `cwndGain, `pacingCycleIndex, `cycleStart, `earliestExit, `probeRttRound,
               `appLimitedSinceProbeRtt, `btlbwFound, `previousStartupBandwidth, `slowStartupRounds, `estimates
      ensures Gains() && Phase() && Detection() && Probing() && (old(btlbwFound) ==> btlbwFound)
      ensures estimates == old(estimates) + if newRound && !ack.appLimited then [e.bandwidth] else []
      ensures state == if old(state == ProbeRtt || ShouldProbeRtt(ack)) then ProbeRtt
                       else Through(old(state), btlbwFound, inflightBytes <= TargetCwnd(1.0, e))
      ensures GainsFollow(old(View()), ack.ackTime, random)
      ensures if old(ShouldProbeRtt(ack)) then
                earliestExit == None && probeRttRound == None && !appLimitedSinceProbeRtt
              else unchanged(`earliestExit, `probeRttRound, `appLimitedSinceProbeRtt)
    {
      hide Disciplined, Staying, Bbr.Detection, Bbr.Cycles, Bbr.Gains, Settings.Target, Bbr.GainsFollow;
      ghost var c := View();
      if newRound && !ack.appLimited {
        DetectBottleneckBandwidth(e.bandwidth);
      }
      LeaveStartupAndDrain(c, e, ack.ackTime, random);
      if ShouldProbeRtt(ack) {
        TransitToProbeRtt();
        GainsAfterProbeRtt(c, ack.ackTime, random);
      }
    }

    method LeaveStartupAndDrain(ghost c: Snapshot, e: Estimates, time: Time, random: nat)
      requires Cycles() && Gains() && Probing() && random < numOfCycles - 1
      requires state == Drain || state == ProbeBw ==> btlbwFound
      requires c.state == state && c.cwndGain == cwndGain && InCycleOf(c)
      modifies `state, `pacingGain, `cwndGain, `pacingCycleIndex, `cycleStart
      ensures Gains() && Phase() && Probing() && GainsFollow(c, time, random)
      ensures state == if old(state) == ProbeRtt then ProbeRtt
                       else Through(old(state), btlbwFound, inflightBytes <= TargetCwnd(1.0, e))
    {
      hide Disciplined, Staying, Bbr.Cycles, Bbr.Gains, Settings.Target, Bbr.EntersCycle, Bbr.DrainGains;
      if state == Startup && btlbwFound {
        TransitToDrain();
      }
      if state == Drain && inflightBytes <= TargetCwnd(1.0, e) {
        TransitToProbeBw(time, random);
      }
    }

    lemma GainsAfterProbeRtt(c: Snapshot, time: Time, random: nat)
      requires state == ProbeRtt || (c.state == ProbeRtt && state != Drain && (state == ProbeBw ==> EntersCycle(time, random)))
      ensures GainsFollow(c, time, random)
    {
    }

    lemma WillProbe(b: Snapshot, ack: Ack)
      requires b.state == state && b.exitingQuiescence == exitingQuiescence
      requires appLimitedSinceProbeRtt <==> b.appLimitedSinceProbeRtt && !ack.minRttUpdated
      ensures state == ProbeRtt || ShouldProbeRtt(ack) <==> b.Probes(settings, ack)
      ensures b.AppLimitedAfter(settings, ack, !ShouldProbeRtt(ack) && appLimitedSinceProbeRtt)
      ensures ShouldProbeRtt(ack) ==> state != ProbeRtt
    {
    }

    /** The state changes one explicit acknowledgement can cause, in the source's order. */
    method Transit(ghost b: Snapshot, ack: Ack, e: Estimates, newRound: bool, random: nat)
      requires Valid() && random < numOfCycles - 1 && (newRound <==> b.NewRound(ack))
      requires b.inflightBytes == inflightBytes && b.sendQuantum == sendQuantum && b.state == state
      requires b.earliestExit == earliestExit && b.probeRttRound == probeRttRound
      requires appLimitedSinceProbeRtt <==> b.appLimitedSinceProbeRtt && !ack.minRttUpdated
      requires b.exitingQuiescence == exitingQuiescence
      modifies `state, `pacingGain, `cwndGain, `pacingCycleIndex, `cycleStart, `earliestExit, `probeRttRound,
               `appLimitedSinceProbeRtt, `exitingQuiescence, `btlbwFound, `previousStartupBandwidth,
               `slowStartupRounds, `estimates, `log, `lowAt, `roundAt
      ensures Valid() && (old(btlbwFound) ==> btlbwFound) && !exitingQuiescence
      ensures estimates == old(estimates) + if newRound && !ack.appLimited then [e.bandwidth] else []
      ensures b.StateAfter(settings, btlbwFound, ack, e, state)
      ensures b.ClockAfter(settings, ack, e, roundTrips, earliestExit, probeRttRound)
      ensures b.AppLimitedAfter(settings, ack, appLimitedSinceProbeRtt)
      ensures GainsFollow(old(View()), ack.ackTime, random)
      ensures Logged(b, old(log), ack, e)
    {
      hide Bbr.Windows, Bbr.Cycles, Bbr.Gains, Bbr.Phase, Bbr.Detection, Bbr.Probing, Settings.Target,
           Bbr.RecordOf, Bbr.EntersCycle, Snapshot.StateAfter, Snapshot.ClockAfter, Bbr.GainsFollow, Bbr.Logged,
           Snapshot.Probes, Snapshot.AppLimitedAfter, Bbr.ShouldProbeRtt;
      ghost var c := View();
      WillProbe(b, ack);
      Advance(ack, e, newRound, random);
      HandleInState(b, c, ack, e, newRound, random);
    }

    method HandleInState(ghost b: Snapshot, ghost c: Snapshot, ack: Ack, e: Estimates, newRound: bool, random: nat)
      requires Windows() && Cycles() && Gains() && Phase() && Probing() && random < numOfCycles - 1
      requires newRound <==> b.NewRound(ack)
      requires b.inflightBytes == inflightBytes && b.sendQuantum == sendQuantum && c.state == b.state
      requires state == ProbeRtt <==> b.Probes(settings, ack)
      requires state != ProbeRtt ==> state == Through(b.state, btlbwFound, inflightBytes <= TargetCwnd(1.0, e))
      requires earliestExit == if b.state == ProbeRtt || state != ProbeRtt then b.earliestExit else None
      requires probeRttRound == if b.state == ProbeRtt || state != ProbeRtt then b.probeRttRound else None
      requires GainsFollow(c, ack.ackTime, random)
      modifies `state, `pacingGain, `cwndGain, `pacingCycleIndex, `cycleStart, `earliestExit, `probeRttRound,
               `exitingQuiescence, `log, `lowAt, `roundAt
      ensures Gains() && Phase() && Probing() && !exitingQuiescence
      ensures b.StateAfter(settings, btlbwFound, ack, e, state)
      ensures b.ClockAfter(settings, ack, e, roundTrips, earliestExit, probeRttRound)
      ensures GainsFollow(c, ack.ackTime, random) && Logged(b, old(log), ack, e)
    {
      hide Bbr.Windows, Bbr.Cycles, Bbr.Gains, Bbr.Phase, Bbr.Probing, Settings.Target, Snapshot.Probes,
           Bbr.RecordOf, Bbr.EntersCycle, Snapshot.StateAfter, Snapshot.ClockAfter, Bbr.GainsFollow, Bbr.Logged;
      exitingQuiescence := false;
      if state == ProbeRtt {
        HandleAckInProbeRtt(b, ack, e, newRound, random);
        GainsAfterProbeRtt(c, ack.ackTime, random);
        LoggedAs(b, old(log), ack, e, ProbeRtt);
      } else {
        LogOther(ack, e, newRound);
        LoggedAs(b, old(log), ack, e, state);
        b.OutsideProbeRtt(settings, btlbwFound, ack, e);
      }
    }

    /** The part of an explicit acknowledgement that comes before any change of state. */
    method TakeAck(ack: Ack, e: Estimates, prevInflightBytes: nat, hasLoss: bool, now: Time) returns (newRound: bool)
      requires Valid()
      modifies `appLimitedSinceProbeRtt, `roundTrips, `endOfRoundTrip, `recovery, `recoveryWindow,
               `pacingCycleIndex, `cycleStart, `pacingGain
      ensures Valid() && (newRound <==> old(View()).NewRound(ack))
      ensures appLimitedSinceProbeRtt <==> old(appLimitedSinceProbeRtt) && !ack.minRttUpdated
      ensures old(View()).TakenAs(settings, pacingGainCycles, ack, e, prevInflightBytes, hasLoss, now, View())
    {
      hide Bbr.Windows, Bbr.Cycles, Bbr.Gains, Bbr.Phase, Bbr.Detection, Bbr.Probing, Settings.Target,
           Snapshot.RecoveryAfter, Snapshot.CycleAfter;
      ghost var b := View();
      if ack.minRttUpdated {
        appLimitedSinceProbeRtt := false;
      }
      newRound := UpdateRoundTripCounter(ack.sentTime, now);
      RecoverOnAck(b, ack, newRound);
      if state == ProbeBw {
        HandleAckInProbeBw(b, ack, e, prevInflightBytes, hasLoss);
      }
    }

    lemma PositiveGains()
      requires Gains()
      ensures pacingGain > 0.0 && cwndGain > 0.0
    {
    }

    /** What an explicit acknowledgement does to the controller, beside the window. */
    ghost predicate AckFollows(
      b: Snapshot, ack: Ack, e: Estimates, prevInflightBytes: nat, hasLoss: bool, now: Time, random: nat)
      reads `inflightBytes, `factor, `endOfRecovery, `exitingQuiescence, `roundTrips, `endOfRoundTrip, `recovery,
            `recoveryWindow, `state, `btlbwFound, `earliestExit, `probeRttRound, `appLimitedSinceProbeRtt,
            `numOfCycles, `pacingGainCycles, `pacingCycleIndex, `cycleStart, `pacingGain, `cwndGain
    {
      && inflightBytes == b.inflightBytes && factor == b.factor && endOfRecovery == b.endOfRecovery && !exitingQuiescence
      && roundTrips == b.roundTrips + (if b.NewRound(ack) then 1 else 0)
      && endOfRoundTrip == (if b.NewRound(ack) then now else b.endOfRoundTrip)
      && b.RecoveryAfter(settings, ack, recovery, recoveryWindow)
      && b.StateAfter(settings, btlbwFound, ack, e, state)
      && b.ClockAfter(settings, ack, e, roundTrips, earliestExit, probeRttRound)
      && b.AppLimitedAfter(settings, ack, appLimitedSinceProbeRtt)
      && PacingFollows(b, ack, e, prevInflightBytes, hasLoss, random)
    }

    /** The pacing gain of ProbeBw follows the cycle, which is entered anew from any other state. */
    ghost predicate PacingFollows(
      b: Snapshot, ack: Ack, e: Estimates, prevInflightBytes: nat, hasLoss: bool, random: nat)
      reads `state, `cwndGain, `pacingGain, `pacingCycleIndex, `cycleStart, `numOfCycles, `pacingGainCycles, `factor
    {
      && (state == ProbeBw == b.state ==>
            b.CycleAfter(settings, pacingGainCycles, ack, e, prevInflightBytes, hasLoss,
                         pacingCycleIndex, cycleStart, pacingGain))
      && (state == ProbeBw != b.state ==> EntersCycle(ack.ackTime, random))
      && (state == Drain == b.state ==> pacingGain == b.pacingGain && cwndGain == b.cwndGain)
      && (state == Drain != b.state ==> DrainGains())
    }

    lemma AllFollows(b: Snapshot, c: Snapshot, ack: Ack, e: Estimates, prevInflightBytes: nat, hasLoss: bool,
                     now: Time, random: nat)
      requires b.TakenAs(settings, pacingGainCycles, ack, e, prevInflightBytes, hasLoss, now, c)
      requires b.inflightBytes == inflightBytes && b.factor == factor && b.endOfRecovery == endOfRecovery
      requires !exitingQuiescence && c.roundTrips == roundTrips && c.endOfRoundTrip == endOfRoundTrip
      requires c.recovery == recovery && c.recoveryWindow == recoveryWindow
      requires b.StateAfter(settings, btlbwFound, ack, e, state)
      requires b.ClockAfter(settings, ack, e, roundTrips, earliestExit, probeRttRound)
      requires b.AppLimitedAfter(settings, ack, appLimitedSinceProbeRtt)
      requires GainsFollow(c, ack.ackTime, random) && c.state == b.state && c.cwndGain == b.cwndGain
      ensures AckFollows(b, ack, e, prevInflightBytes, hasLoss, now, random)
    {
      hide Snapshot.StateAfter, Snapshot.ClockAfter, Snapshot.AppLimitedAfter, Snapshot.RecoveryAfter, Snapshot.CycleAfter;
      Paces(b, c, ack, e, prevInflightBytes, hasLoss, random);
    }

    lemma Paces(b: Snapshot, c: Snapshot, ack: Ack, e: Estimates, prevInflightBytes: nat, hasLoss: bool, random: nat)
      requires GainsFollow(c, ack.ackTime, random) && c.state == b.state && c.cwndGain == b.cwndGain
      requires if c.state != ProbeBw then c.pacingGain == b.pacingGain
               else b.CycleAfter(settings, pacingGainCycles, ack, e, prevInflightBytes, hasLoss,
                                 c.pacingCycleIndex, c.cycleStart, c.pacingGain)
      ensures PacingFollows(b, ack, e, prevInflightBytes, hasLoss, random)
    {
      hide Snapshot.CycleAfter;
    }

    /** What an acknowledgement adds to the log. */
    ghost predicate Logged(b: Snapshot, before: seq<Record>, ack: Ack, e: Estimates)
      reads `log, `state
    {
      && log == before + [Last(log)]
      && var r := Last(log);
         && r.time == ack.ackTime && r.packetLen == settings.packetLen && r.after == state
         && r.window == settings.ProbeRttWindow(b.sendQuantum, e) && r.inflight == b.inflightBytes
         && (r.newRound <==> b.NewRound(ack)) && (r.Probing() <==> b.Probes(settings, ack))
    }

    /** All of an explicit acknowledgement but the window. */
    method Decide(ack: Ack, e: Estimates, prevInflightBytes: nat, hasLoss: bool, now: Time, random: nat)
      requires Valid() && random < numOfCycles - 1
      modifies this
      ensures Valid() && cwnd == old(cwnd) && sendQuantum == old(sendQuantum) && (old(btlbwFound) ==> btlbwFound)
      ensures inflightBytes == old(inflightBytes) && factor == old(factor)
      ensures AckFollows(old(View()), ack, e, prevInflightBytes, hasLoss, now, random)
      ensures Logged(old(View()), old(log), ack, e)
      ensures estimates == old(estimates)
              + if old(View()).NewRound(ack) && !ack.appLimited then [e.bandwidth] else []
    {
      hide Bbr.Windows, Bbr.Cycles, Bbr.Gains, Bbr.Phase, Bbr.Detection, Bbr.Probing, Settings.ProbeRttWindow,
           Snapshot.TakenAs, Snapshot.StateAfter, Snapshot.ClockAfter, Snapshot.AppLimitedAfter, Snapshot.Probes,
           Bbr.GainsFollow, Bbr.AckFollows, Bbr.Logged;
      ghost var b := View();
      var newRound := TakeAck(ack, e, prevInflightBytes, hasLoss, now);
      ghost var c := View();
      Transit(b, ack, e, newRound, random);
      AllFollows(b, c, ack, e, prevInflightBytes, hasLoss, now, random);
    }

    lemma LoggedAs(b: Snapshot, before: seq<Record>, ack: Ack, e: Estimates, handled: State)
      requires log == before + [RecordOf(ack, e, b.NewRound(ack), handled, state)]
      requires b.inflightBytes == inflightBytes && b.sendQuantum == sendQuantum
      requires handled == ProbeRtt <==> b.Probes(settings, ack)
      ensures Logged(b, before, ack, e)
    {
    }

    method OnExplicitAck(ack: Ack, e: Estimates, prevInflightBytes: nat, hasLoss: bool, now: Time, random: nat)
      requires Valid() && random < numOfCycles - 1
      modifies this
      ensures Valid() && pacingGain > 0.0
      ensures inflightBytes == old(inflightBytes) && factor == old(factor)
      ensures AckFollows(old(View()), ack, e, prevInflightBytes, hasLoss, now, random)
      ensures WindowFollows(old(View()), ack, ack.excessiveBytes, e) && Logged(old(View()), old(log), ack, e)
      ensures Kept(old(btlbwFound), old(estimates), old(log), old(cwnd))
      ensures estimates == old(estimates)
              + if old(View()).NewRound(ack) && !ack.appLimited then [e.bandwidth] else []
    {
      hide Bbr.Windows, Bbr.Cycles, Bbr.Gains, Bbr.Phase, Bbr.Detection, Bbr.Probing, Settings.InBounds,
           Bbr.AckFollows, Bbr.WindowFollows;
      ghost var b := View();
      Decide(ack, e, prevInflightBytes, hasLoss, now, random);
      PositiveGains();
      UpdateCwnd(b, ack, ack.excessiveBytes, e);
    }

    method OnPacketAcked(ack: Ack, e: Estimates, prevInflightBytes: nat, hasLoss: bool, now: Time, random: nat)
      requires Valid() && random < numOfCycles - 1
      modifies this
      ensures Valid() && pacingGain > 0.0 && WindowFollows(old(View()), ack, if ack.implicit then 0 else ack.excessiveBytes, e)
      ensures inflightBytes == old(inflightBytes) && factor == old(factor)
      ensures Kept(old(btlbwFound), old(estimates), old(log), old(cwnd))
      ensures !ack.implicit ==>
        && AckFollows(old(View()), ack, e, prevInflightBytes, hasLoss, now, random)
        && Logged(old(View()), old(log), ack, e)
      // An implicit acknowledgement moves the window and the send quantum and nothing else.
      ensures ack.implicit ==>
        && View() == old(View()).(cwnd := cwnd, sendQuantum := sendQuantum)
        && unchanged(`btlbwFound, `previousStartupBandwidth, `slowStartupRounds, `numOfCycles, `pacingGainCycles,
                     `estimates, `log, `lowAt, `roundAt)
    {
      hide Bbr.Windows, Bbr.Cycles, Bbr.Gains, Bbr.Phase, Bbr.Detection, Bbr.Probing, Settings.InBounds,
           Bbr.AckFollows, Bbr.WindowFollows, Bbr.Logged;
      PositiveGains();
      if ack.implicit {
        UpdateCwnd(View(), ack, 0, e);
        return;
      }
      OnExplicitAck(ack, e, prevInflightBytes, hasLoss, now, random);
    }

    /** What no event takes back. */
    ghost predicate Kept(found: bool, estimatesBefore: seq<Bandwidth>, logBefore: seq<Record>, cwndBefore: nat)
      reads `btlbwFound, `estimates, `log, `cwnd
    {
      && (found ==> btlbwFound) && estimatesBefore <= estimates && logBefore <= log
      && (settings.InBounds(cwndBefore) ==> settings.InBounds(cwnd))
    }

    /** Fails when more bytes are acknowledged or lost than are in flight. */
    method OnPacketAckOrLoss(ack: Option<Ack>, loss: Option<Loss>, e: Estimates, now: Time, random: nat)
      returns (ok: bool)
      requires Valid() && random < numOfCycles - 1
      modifies this
      ensures Valid() && pacingGain > 0.0 && factor == old(factor)
      ensures ok <==> AckedBytes(ack) + LostBytes(loss) <= old(inflightBytes)
      ensures ok ==> inflightBytes == old(inflightBytes) - AckedBytes(ack) - LostBytes(loss)
      ensures Kept(old(btlbwFound), old(estimates), old(log), old(cwnd))
      ensures ok && ack.Some? && ack.value.newlyAcked ==>
        && WindowFollows(old(View()).Prepared(settings, ack, loss, now), ack.value,
                         if ack.value.implicit then 0 else ack.value.excessiveBytes, e)
        && var b := old(View()).Prepared(settings, ack, loss, now);
           if ack.value.implicit then View() == b.(cwnd := cwnd, sendQuantum := sendQuantum) && log == old(log)
           else
             && AckFollows(b, ack.value, e, old(inflightBytes), loss.Some?, now, random)
             && Logged(b, old(log), ack.value, e)
      ensures ok && !(ack.Some? && ack.value.newlyAcked) ==>
        View() == old(View()).Prepared(settings, ack, loss, now) && log == old(log)
      ensures !ok ==> log == old(log)
      ensures !ok ==>
        inflightBytes == old(inflightBytes) - if AckedBytes(ack) <= old(inflightBytes) then AckedBytes(ack) else 0
    {
      hide Bbr.Windows, Bbr.Cycles, Bbr.Gains, Bbr.Phase, Bbr.Detection, Bbr.Probing, Settings.InBounds,
           Bbr.AckFollows, Bbr.WindowFollows, Bbr.Logged, Snapshot.AfterLoss;
      PositiveGains();
      var prevInflightBytes := inflightBytes;
      ok := TakeOutOfFlight(ack, loss, now);
      if ok && ack.Some? && ack.value.newlyAcked {
        OnPacketAcked(ack.value, e, prevInflightBytes, loss.Some?, now, random);
      }
    }

    /** The part that comes before an acknowledgement is looked at. */
    method TakeOutOfFlight(ack: Option<Ack>, loss: Option<Loss>, now: Time) returns (ok: bool)
      requires Valid()
      modifies `inflightBytes, `endOfRecovery, `recovery, `recoveryWindow, `endOfRoundTrip
      ensures Valid() && (ok <==> AckedBytes(ack) + LostBytes(loss) <= old(inflightBytes))
      ensures ok ==> View() == old(View()).Prepared(settings, ack, loss, now)
      ensures ok ==> inflightBytes == old(inflightBytes) - AckedBytes(ack) - LostBytes(loss)
      ensures !ok ==>
        inflightBytes == old(inflightBytes) - if AckedBytes(ack) <= old(inflightBytes) then AckedBytes(ack) else 0
    {
      hide Bbr.Windows, Bbr.Cycles, Bbr.Gains, Bbr.Phase, Bbr.Detection, Bbr.Probing, Snapshot.AfterLoss;
      if ack.Some? {
        ok := OnRemoveBytesFromInflight(ack.value.ackedBytes);
        if !ok { return; }
      }
      if loss.Some? {
        ok := OnRemoveBytesFromInflight(loss.value.lostBytes);
        if !ok { return; }
        RecordLoss(loss.value, AckedBytes(ack), now);
      }
      ok := true;
    }

    method RecordLoss(loss: Loss, ackedBytes: nat, now: Time)
      requires Windows()
      modifies `endOfRecovery, `recovery, `recoveryWindow, `endOfRoundTrip
      ensures Windows() && View() == old(View()).AfterLoss(settings, loss, ackedBytes, now)
    {
      hide Bbr.Windows, Settings.Bounded, Max, Min;
      OnPacketLoss(loss, ackedBytes, now);
    }

    method SetAppLimited(e: Estimates)
      requires Valid()
      modifies `appLimitedSinceProbeRtt
      ensures Valid()
      ensures appLimitedSinceProbeRtt <==> old(appLimitedSinceProbeRtt) || inflightBytes <= GetCongestionWindow(e)
    {
      if inflightBytes > GetCongestionWindow(e) {
        return;
      }
      appLimitedSinceProbeRtt := true;
    }

    method SetBandwidthUtilizationFactor(wanted: real)
      requires Valid()
      modifies `factor, `numOfCycles, `pacingGainCycles, `pacingGain, `cwndGain
      ensures Valid() && factor == if wanted >= 1.0 then 1.0 else if wanted < 0.25 then 0.25 else wanted
      ensures state != Startup ==> pacingGain == old(pacingGain) && cwndGain == old(cwndGain)
    {
      hide Bbr.Windows, Bbr.Phase, Bbr.Detection, Bbr.Probing;
      var f := if wanted >= 1.0 then 1.0 else if wanted < 0.25 then 0.25 else wanted;
      if factor == f {
        return;
      }
      factor := f;
      if factor < 1.0 {
        numOfCycles := BACKGROUND_CYCLES;
        pacingGainCycles := seq(BACKGROUND_CYCLES, _ => f);
        pacingGainCycles := pacingGainCycles[0 := 1.25][1 := 0.75];
        if state == Startup {
          pacingGain, cwndGain := STARTUP_GAIN / 2.0, STARTUP_GAIN / 2.0;
        }
      } else {
        numOfCycles := CYCLES;
        pacingGainCycles := [1.25, 0.75, 1.0, 1.0, 1.0, 1.0, 1.0, 1.0];
        if state == Startup {
          pacingGain, cwndGain := STARTUP_GAIN, STARTUP_GAIN;
        }
      }
    }

    /** One event of a connection's life. */
    method Handle(event: Event)
      requires Valid()
      modifies this
      ensures Valid() && Kept(old(btlbwFound), old(estimates), old(log), old(cwnd))
      ensures inflightBytes == event.Flight(old(inflightBytes)) && factor == event.Factor(old(factor))
      ensures Noted(old(log), event.Handled(old(inflightBytes)))
    {
      hide Bbr.Windows, Bbr.Gains, Bbr.Phase, Bbr.Detection, Bbr.Probing, Bbr.WindowFollows, Bbr.AckFollows,
           Snapshot.Prepared;
      match event
      case Sent(bytes, appLimited) => OnPacketSent(bytes, appLimited);
      case AckOrLoss(ack, loss, e, now, random) =>
        var _ := OnPacketAckOrLoss(ack, loss, e, now, random % (numOfCycles - 1));
      case Removed(bytes) => var _ := OnRemoveBytesFromInflight(bytes);
      case AppLimited(e) => SetAppLimited(e);
      case UtilizationFactor(f) => SetBandwidthUtilizationFactor(f);
    }

    /** The log has grown by one record for each of `acks`, in order. */
    ghost predicate Noted(before: seq<Record>, acks: seq<Ack>)
      reads `log
    {
      && |log| == |before| + |acks| && before <= log
      && forall i :: 0 <= i < |acks| ==> log[|before| + i].time == acks[i].ackTime
    }

    /** Every run, from every valid state: the invariant holds and nothing found is lost; what is in flight is
        what the events leave there; and every acknowledgement that is looked at is in the log. */
    method Run(events: seq<Event>)
      requires Valid()
      modifies this
      ensures Valid() && Kept(old(btlbwFound), old(estimates), old(log), old(cwnd))
      ensures inflightBytes == FlightAfter(old(inflightBytes), events)
      ensures Noted(old(log), HandledOf(old(inflightBytes), events))
    {
      hide Bbr.Valid;
      assert events[..0] == [];
      for i := 0 to |events|
        invariant Valid() && Kept(old(btlbwFound), old(estimates), old(log), old(cwnd))
        invariant inflightBytes == FlightAfter(old(inflightBytes), events[..i])
        invariant Noted(old(log), HandledOf(old(inflightBytes), events[..i]))
      {
        Handle(events[i]);
        assert events[..i + 1][..i] == events[..i];
      }
      assert events[..|events|] == events;
    }

    /** The bottleneck is found exactly if three estimates in a row have failed to grow by a quarter over the
        last one that counted. */
    lemma FoundIffStalled()
      requires Valid()
      ensures btlbwFound <==> exists j: nat :: Stalls(estimates, j)
    {
      StartupOverIff(estimates);
    }

    /** Startup is left for good once more than `3 * k` rounds were not limited by the application,
        if their estimates lie in a range that `k` growths by a quarter exceed. */
    lemma StartupIsOver(lo: real, hi: real, k: nat)
      requires Valid()
      requires lo > 0.0 && Between(estimates, lo, hi) && hi < lo * Pow(1.25, k) && |estimates| > 3 * k
      ensures btlbwFound && state != Startup
    {
      StartupEnds(estimates, lo, hi, k);
    }
  }

  datatype Event =
    | Sent(bytes: nat, appLimited: bool)
    | AckOrLoss(ack: Option<Ack>, loss: Option<Loss>, e: Estimates, now: Time, random: nat)
    | Removed(bytes: nat)
    | AppLimited(e: Estimates)
    | UtilizationFactor(f: real)
  {
    /** The bytes that leave the network with the event. */
    function Leaving(): nat {
      match this
      case AckOrLoss(ack, loss, _, _, _) => AckedBytes(ack) + LostBytes(loss)
      case Removed(n) => n
      case _ => 0
    }

    /** What is in flight after the event; one that takes more out than there is fails, and has taken out
        what was acknowledged if only the loss was too much. */
    function Flight(inflight: nat): nat {
      if Sent? then inflight + bytes
      else if Leaving() <= inflight then inflight - Leaving()
      else if AckOrLoss? && AckedBytes(ack) <= inflight then inflight - AckedBytes(ack)
      else inflight
    }

    /** The explicit acknowledgement the controller looks at, if there is one. */
    function Handled(inflight: nat): seq<Ack> {
      if AckOrLoss? && Leaving() <= inflight && ack.Some? && ack.value.newlyAcked && !ack.value.implicit
      then [ack.value] else []
    }

    function Factor(factor: real): real {
      match this
      case UtilizationFactor(f) => if f >= 1.0 then 1.0 else if f < 0.25 then 0.25 else f
      case _ => factor
    }
  }

  function FlightAfter(inflight: nat, events: seq<Event>): nat {
    if events == [] then inflight
    else events[|events| - 1].Flight(FlightAfter(inflight, events[..|events| - 1]))
  }

  function HandledOf(inflight: nat, events: seq<Event>): seq<Ack> {
    if events == [] then []
    else
      var n := |events| - 1;
      HandledOf(inflight, events[..n]) + events[n].Handled(FlightAfter(inflight, events[..n]))
  }

  function SumSent(events: seq<Event>): nat {
    if events == [] then 0
    else
      var n := |events| - 1;
      SumSent(events[..n]) + if events[n].Sent? then events[n].bytes else 0
  }

  function SumLeaving(events: seq<Event>): nat {
    if events == [] then 0 else SumLeaving(events[..|events| - 1]) + events[|events| - 1].Leaving()
  }

  /** Conservation: as long as no event takes out more than there is, every byte that was sent is either in
      flight or has left with exactly one event. */
  lemma {:induction false} EveryByteIsAccountedFor(inflight: nat, events: seq<Event>)
    requires forall i :: 0 <= i < |events| ==> events[i].Leaving() <= FlightAfter(inflight, events[..i])
    ensures FlightAfter(inflight, events) + SumLeaving(events) == inflight + SumSent(events)
  {
    if events != [] {
      var n := |events| - 1;
      assert forall i :: 0 <= i < n ==> events[..n][..i] == events[..i];
      EveryByteIsAccountedFor(inflight, events[..n]);
    }
  }

  function Last(log: seq<Record>): Record {
    if log == [] then Record(0, false, 0, 0, 0, Startup, Startup) else log[|log| - 1]
  }

  lemma LossShrinks(st: Settings, window: nat, lost: nat)
    ensures Max(window - Min(window, lost), 4 * st.packetLen)
            == if window > lost + 4 * st.packetLen then window - lost else 4 * st.packetLen
    ensures st.InBounds(4 * st.packetLen)
    ensures st.InBounds(window) && window > lost + 4 * st.packetLen ==> st.InBounds(window - lost)
  {
  }

  lemma ClockStarts(log: seq<Record>, r: Record, roundAt: nat)
    requires r.LowInflight() && !r.Leaves()
    ensures Staying(log + [r], Some(r.time + PROBE_RTT_DURATION), None, |log|, roundAt)
  {
  }

  lemma StayGoesOn(log: seq<Record>, r: Record, exit: Option<Time>,
                   round: Option<nat>, at: nat, round': Option<nat>, at': nat, lowAt: nat)
    requires Staying(log, exit, round, lowAt, at) && r.Probing()
    requires (round' == round && at' == at) || (exit.Some? && r.newRound && at' == |log|)
    ensures !r.Leaves() ==> Staying(log + [r], exit, round', lowAt, at')
    ensures r.Leaves() && exit.Some? && round'.Some? && exit.value <= r.time ==>
      StayedLongEnough(log + [r], lowAt, at', |log|)
  {
  }

  lemma LogGrows(log: seq<Record>, r: Record, a: nat, b: nat)
    requires Disciplined(log)
    requires r.Leaves() ==> StayedLongEnough(log + [r], a, b, |log|)
    ensures Disciplined(log + [r])
  {
    forall j | 0 <= j < |log + [r]| && (log + [r])[j].Leaves()
      ensures exists a, b :: StayedLongEnough(log + [r], a, b, j)
    {
      if j < |log| {
        var a, b :| StayedLongEnough(log, a, b, j);
        assert StayedLongEnough(log + [r], a, b, j);
      }
    }
  }
}
