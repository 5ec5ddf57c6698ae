/** `FunctionLooper`: keeps calling a function from the event loop, or from a pacing timer, as long
    as it runs.  What the function does to its own looper is a script of actions. */
module FunctionLoopers {

  type Time = int   // in microseconds

  datatype Action =
    | Run(now: Time)
    | Stop
    | SetPacingTimer(present: bool)
    | SetPacingFunction(present: bool)
    | SetFireLoopEarly(early: bool)

  datatype State = State(
    running: bool,
    inBody: bool,
    loop: bool,        // `isLoopCallbackScheduled`
    timer: bool,       // `isScheduled`
    hasTimer: bool,
    hasPacing: bool,
    early: bool,
    next: Time)
  {
    /** Between events, a looper runs exactly if a call of its function is pending. */
    ghost predicate Valid() {
      !inBody && (running <==> loop || timer)
    }

    /** At most one call is pending. */
    ghost predicate Single() {
      !(loop && timer)
    }
  }

  /** Whether a pending timer call is close enough to give way to the event loop: the distance is
      rounded down to whole milliseconds and must be at most one. */
  predicate Close(next: Time, now: Time) {
    (if next < now then 0 else (next - now) / 1000) <= 1
  }

  function Ran(s: State, now: Time): State {
    var r := s.(running := true);
    if r.hasTimer && r.inBody then r
    else if r.loop || (!r.early && r.timer) then r
    else if r.timer then (if Close(r.next, now) then r.(timer := false, loop := true) else r)
    else r.(loop := true)
  }

  function Acted(s: State, a: Action): State {
    match a
    case Run(now) => Ran(s, now)
    case Stop => s.(running := false, loop := false, timer := false)
    case SetPacingTimer(present) => s.(hasTimer := present)
    case SetPacingFunction(present) => s.(hasPacing := present)
    case SetFireLoopEarly(early) => s.(early := early)
  }

  function ActedAll(s: State, script: seq<Action>): State
    decreases |script|
  {
    if script == [] then s else ActedAll(Acted(s, script[0]), script[1..])
  }

  /** What follows the call of the function in `commonLoopBody`. */
  function Rescheduled(s: State, delay: nat, now: Time): State {
    if !s.running then s
    else if s.hasPacing && s.hasTimer && !s.timer && delay != 0 then s.(timer := true, next := now + delay)
    else s.(loop := true)
  }

  /** A call of the function, from a state in which the call is no longer pending. */
  function Body(s: State, script: seq<Action>, delay: nat, now: Time): State {
    Rescheduled(ActedAll(s.(inBody := true), script), delay, now).(inBody := false)
  }

  datatype Event =
    | Outside(action: Action)
    | LoopTurn(script: seq<Action>, delay: nat, now: Time)
    | TimerTurn(script: seq<Action>, delay: nat, now: Time)

  predicate Fires(s: State, e: Event) {
    (e.LoopTurn? && s.loop) || (e.TimerTurn? && s.timer)
  }

  /** The state in which a firing event calls the function. */
  function Woken(s: State, e: Event): State {
    if e.LoopTurn? then s.(loop := false) else s.(timer := false)
  }

  function Step(s: State, e: Event): State {
    if e.Outside? then Acted(s, e.action)
    else if Fires(s, e) then Body(Woken(s, e), e.script, e.delay, e.now)
    else s
  }

  function Steps(s: State, events: seq<Event>): State
    decreases |events|
  {
    if events == [] then s else Steps(Step(s, events[0]), events[1..])
  }

  // What a script leaves behind, read off its text.

  predicate RunningAfter(script: seq<Action>, running: bool) {
    if script == [] then running
    else RunningAfter(script[1..], if script[0].Run? then true else if script[0].Stop? then false else running)
  }

  predicate TimerAfter(script: seq<Action>, timer: bool) {
    if script == [] then timer
    else TimerAfter(script[1..], if script[0].SetPacingTimer? then script[0].present else timer)
  }

  predicate PacingAfter(script: seq<Action>, pacing: bool) {
    if script == [] then pacing
    else PacingAfter(script[1..], if script[0].SetPacingFunction? then script[0].present else pacing)
  }

  predicate EarlyAfter(script: seq<Action>, early: bool) {
    if script == [] then early
    else EarlyAfter(script[1..], if script[0].SetFireLoopEarly? then script[0].early else early)
  }

  predicate NoStop(script: seq<Action>) {
    forall i :: 0 <= i < |script| ==> !script[i].Stop?
  }

  /** The function asks for a turn of the event loop: at some point it calls `run` without a pacing
      timer, and it does not stop afterwards. */
  ghost predicate AsksForLoop(script: seq<Action>, timer: bool) {
    exists i :: 0 <= i < |script| && AsksAt(script, timer, i)
  }

  predicate AsksAt(script: seq<Action>, timer: bool, i: nat)
    requires i < |script|
  {
    script[i].Run? && !TimerAfter(script[..i], timer) && NoStop(script[i + 1..])
  }

  /** The function leaves a timer call alone: it does not stop, and does not call `run` without a pacing
      timer when that call is close and firing early is allowed. */
  ghost predicate LeavesTimerCall(script: seq<Action>, timer: bool, early: bool, next: Time) {
    forall i :: 0 <= i < |script| ==> !script[i].Stop? && !Displaces(script, i, timer, early, next)
  }

  predicate Displaces(script: seq<Action>, i: nat, timer: bool, early: bool, next: Time)
    requires i < |script|
  {
    script[i].Run? && !TimerAfter(script[..i], timer) && EarlyAfter(script[..i], early) && Close(next, script[i].now)
  }

  /** The same if a turn of the event loop may be pending already, which `run` leaves as it is. */
  ghost predicate KeepsTimerCall(s: State, script: seq<Action>) {
    if s.loop then NoStop(script) else LeavesTimerCall(script, s.hasTimer, s.early, s.next)
  }

  /** The function asks for a turn of the event loop and leaves a timer that paces it: it installs a
      pacing timer after it has called `run`. */
  ghost predicate InstallsAfterRun(script: seq<Action>, timer: bool, pacing: bool, delay: nat) {
    AsksForLoop(script, timer) && TimerAfter(script, timer) && PacingAfter(script, pacing) && delay != 0
  }

  /** Whether a call of the function, made when the calls of `s` are pending, leaves two pending: it
      leaves a timer call alone, which it does without stopping if a turn of the event loop is pending
      too; or a turn of the event loop is asked for and a timer paces. */
  ghost predicate AsksTwice(s: State, script: seq<Action>, delay: nat) {
    || (s.timer && KeepsTimerCall(s, script))
    || ((AsksForLoop(script, s.hasTimer) || (s.loop && NoStop(script)))
        && TimerAfter(script, s.hasTimer) && PacingAfter(script, s.hasPacing) && delay != 0)
  }

  // How the text-level predicates follow a script from its first action.

  lemma NoStopHead(script: seq<Action>)
    requires script != []
    ensures NoStop(script) <==> !script[0].Stop? && NoStop(script[1..])
  {
    if NoStop(script[1..]) {
      assert forall i :: 1 <= i < |script| ==> script[i] == script[1..][i - 1];
    }
  }

  lemma AsksHead(script: seq<Action>, timer: bool)
    requires script != []
    ensures var timer' := if script[0].SetPacingTimer? then script[0].present else timer;
            AsksForLoop(script, timer) <==>
              (script[0].Run? && !timer && NoStop(script[1..])) || AsksForLoop(script[1..], timer')
  {
    hide AsksAt, TimerAfter, NoStop;
    var rest, timer' := script[1..], if script[0].SetPacingTimer? then script[0].present else timer;
    AsksAtHead(script, timer);
    if AsksForLoop(script, timer) {
      var i :| 0 <= i < |script| && AsksAt(script, timer, i);
      if i > 0 {
        AsksAtShifted(script, timer, i);
        assert AsksAt(rest, timer', i - 1);
      }
    }
    if AsksForLoop(rest, timer') {
      var i :| 0 <= i < |rest| && AsksAt(rest, timer', i);
      AsksAtShifted(script, timer, i + 1);
      assert AsksAt(script, timer, i + 1);
    }
  }

  lemma AsksAtHead(script: seq<Action>, timer: bool)
    requires script != []
    ensures AsksAt(script, timer, 0) <==> script[0].Run? && !timer && NoStop(script[1..])
  {
    assert script[..0] == [];
  }

  lemma AsksAtShifted(script: seq<Action>, timer: bool, i: nat)
    requires 0 < i < |script|
    ensures var timer' := if script[0].SetPacingTimer? then script[0].present else timer;
            AsksAt(script, timer, i) <==> AsksAt(script[1..], timer', i - 1)
  {
    Shifted(script, i);
  }

  lemma Shifted(script: seq<Action>, i: nat)
    requires 0 < i < |script|
    ensures script[..i][0] == script[0] && script[..i][1..] == script[1..][..i - 1]
    ensures script[i + 1..] == script[1..][i..] && script[i] == script[1..][i - 1]
  {
  }

  lemma LeavesHead(script: seq<Action>, timer: bool, early: bool, next: Time)
    requires script != []
    ensures var a := script[0];
            var timer', early' := if a.SetPacingTimer? then a.present else timer, if a.SetFireLoopEarly? then a.early else early;
            LeavesTimerCall(script, timer, early, next) <==>
              && !a.Stop? && !(a.Run? && !timer && early && Close(next, a.now))
              && LeavesTimerCall(script[1..], timer', early', next)
  {
    var a, rest := script[0], script[1..];
    var timer', early' := if a.SetPacingTimer? then a.present else timer, if a.SetFireLoopEarly? then a.early else early;
    assert script[..0] == [];
    forall i | 0 < i < |script|
      ensures script[i] == rest[i - 1] && (Displaces(script, i, timer, early, next) <==> Displaces(rest, i - 1, timer', early', next))
    {
      Shifted(script, i);
    }
    if LeavesTimerCall(script, timer, early, next) {
      forall i | 0 <= i < |rest| ensures !rest[i].Stop? && !Displaces(rest, i, timer', early', next) {
        assert script[i + 1] == rest[i] && !Displaces(script, i + 1, timer, early, next);
      }
    }
  }

  /** A timer call that is not left alone, by a function that does not stop, gives way to a turn of the
      event loop. */
  lemma DisplacedAsks(script: seq<Action>, timer: bool, early: bool, next: Time)
    requires NoStop(script) && !LeavesTimerCall(script, timer, early, next)
    ensures AsksForLoop(script, timer)
  {
    var i :| 0 <= i < |script| && Displaces(script, i, timer, early, next);
    assert AsksAt(script, timer, i);
  }

  lemma {:induction false} ScriptSets(s: State, script: seq<Action>)
    requires s.inBody
    ensures var r := ActedAll(s, script);
            && r.inBody && r.running == RunningAfter(script, s.running)
            && r.hasTimer == TimerAfter(script, s.hasTimer) && r.hasPacing == PacingAfter(script, s.hasPacing)
            && r.early == EarlyAfter(script, s.early) && r.next == s.next
    decreases |script|
  {
    hide Ran;
    if script != [] {
      if script[0].Run? {
        RunSets(s, script[0].now);
      }
      ScriptSets(Acted(s, script[0]), script[1..]);
    }
  }

  lemma RunSets(s: State, now: Time)
    ensures var r := Ran(s, now);
            && r.running && r.inBody == s.inBody && r.hasTimer == s.hasTimer && r.hasPacing == s.hasPacing
            && r.early == s.early && r.next == s.next
  {
  }

  lemma {:induction false} ScriptCalls(s: State, script: seq<Action>)
    requires s.inBody && (!s.running ==> !s.loop && !s.timer)
    ensures var r := ActedAll(s, script);
            && (s.Single() ==> r.Single())
            && (r.timer <==> s.timer && KeepsTimerCall(s, script))
            && (!r.timer ==> (r.loop <==> AsksForLoop(script, s.hasTimer) || (s.loop && NoStop(script))))
            && (!r.running ==> !r.loop && !r.timer)
    decreases |script|
  {
    hide AsksForLoop, LeavesTimerCall, NoStop, Close;
    if script == [] {
      EmptyScript(s.hasTimer, s.early, s.next);
    } else {
      var rest := script[1..];
      var s' := Acted(s, script[0]);
      ScriptCalls(s', rest);
      NoStopHead(script);
      AsksHead(script, s.hasTimer);
      LeavesHead(script, s.hasTimer, s.early, s.next);
      if NoStop(rest) && !LeavesTimerCall(rest, s'.hasTimer, s'.early, s'.next) {
        DisplacedAsks(rest, s'.hasTimer, s'.early, s'.next);
      }
    }
  }

  /** The script does to the looper what its text says. */
  lemma ScriptDoes(s: State, script: seq<Action>)
    requires s.inBody && (!s.running ==> !s.loop && !s.timer)
    ensures var r := ActedAll(s, script);
            && r.inBody && r.running == RunningAfter(script, s.running) && (s.Single() ==> r.Single())
            && r.hasTimer == TimerAfter(script, s.hasTimer) && r.hasPacing == PacingAfter(script, s.hasPacing)
            && r.early == EarlyAfter(script, s.early) && r.next == s.next
            && (r.timer <==> s.timer && KeepsTimerCall(s, script))
            && (!r.timer ==> (r.loop <==> AsksForLoop(script, s.hasTimer) || (s.loop && NoStop(script))))
            && (!r.running ==> !r.loop && !r.timer)
  {
    hide *;
    ScriptSets(s, script);
    ScriptCalls(s, script);
  }

  lemma EmptyScript(timer: bool, early: bool, next: Time)
    ensures NoStop([]) && !AsksForLoop([], timer) && LeavesTimerCall([], timer, early, next)
  {
  }

  /** A function that asks twice ends up running. */
  lemma {:induction false} RunningUnlessStopped(script: seq<Action>, running: bool)
    ensures running && NoStop(script) ==> RunningAfter(script, running)
    ensures forall timer :: AsksForLoop(script, timer) ==> RunningAfter(script, running)
  {
    hide AsksForLoop, NoStop;
    if script == [] {
      forall timer ensures !AsksForLoop(script, timer) {
        EmptyScript(timer, false, 0);
      }
    } else {
      NoStopHead(script);
      var running' := if script[0].Run? then true else if script[0].Stop? then false else running;
      RunningUnlessStopped(script[1..], running');
      forall timer | AsksForLoop(script, timer) ensures RunningAfter(script, running) {
        AsksHead(script, timer);
      }
    }
  }

  lemma LeavesMeansNoStop(script: seq<Action>, timer: bool, early: bool, next: Time)
    ensures LeavesTimerCall(script, timer, early, next) ==> NoStop(script)
  {
  }

  /** The function leaves a pacing function and a timer that is free, and the pacing function asks for
      a delay. */
  ghost predicate Paced(s: State, script: seq<Action>, delay: nat) {
    && TimerAfter(script, s.hasTimer) && PacingAfter(script, s.hasPacing) && delay != 0
    && !(s.timer && KeepsTimerCall(s, script))
  }

  /** What a call of the function leaves, read off its text: if it is paced, the next call comes from the
      timer, after the delay, and from the event loop only if that was asked for; otherwise it comes from
      the event loop. */
  ghost predicate CallDoes(s: State, script: seq<Action>, delay: nat, now: Time, r: State) {
    && r.running == RunningAfter(script, true)
    && r.hasTimer == TimerAfter(script, s.hasTimer) && r.hasPacing == PacingAfter(script, s.hasPacing)
    && r.early == EarlyAfter(script, s.early)
    && (!r.running ==> !r.loop && !r.timer)
    && (r.running && Paced(s, script, delay) ==>
          && r.timer && r.next == now + delay
          && (r.loop <==> AsksForLoop(script, s.hasTimer) || (s.loop && NoStop(script))))
    && (r.running && !Paced(s, script, delay) ==>
          r.loop && r.next == s.next && (r.timer <==> s.timer && KeepsTimerCall(s, script)))
  }

  /** Whatever the function does, the looper stays alive exactly if it ends up running; and two calls
      are pending afterwards exactly if the function asked twice. */
  lemma CallLeaves(s: State, script: seq<Action>, delay: nat, now: Time)
    requires s.running && !s.inBody
    ensures var r := Body(s, script, delay, now);
            && r.Valid() && CallDoes(s, script, delay, now, r)
            && (r.Single() <==> !AsksTwice(s, script, delay))
  {
    hide AsksForLoop, LeavesTimerCall, NoStop, ActedAll, RunningAfter, TimerAfter, PacingAfter, EarlyAfter;
    ScriptDoes(s.(inBody := true), script);
    RunningUnlessStopped(script, true);
    LeavesMeansNoStop(script, s.hasTimer, s.early, s.next);
  }

  /** Every event keeps the looper alive exactly if it runs. */
  lemma StepKeepsValid(s: State, e: Event)
    requires s.Valid()
    ensures Step(s, e).Valid()
    ensures e.Outside? && s.Single() ==> Step(s, e).Single()
    ensures Fires(s, e) ==> (Step(s, e).Single() <==> !AsksTwice(Woken(s, e), e.script, e.delay))
  {
    hide Body, AsksTwice, CallDoes;
    if Fires(s, e) {
      CallLeaves(Woken(s, e), e.script, e.delay, e.now);
    }
  }

  /** From outside, `run` leaves a call pending and `stop` leaves none. */
  lemma FromOutside(s: State, now: Time)
    requires s.Valid()
    ensures var r := Step(s, Outside(Action.Run(now))); r.running && (r.loop || r.timer)
    ensures var r := Step(s, Outside(Action.Stop)); !r.running && !r.loop && !r.timer
  {
  }

  ghost predicate AlwaysSingle(s: State, events: seq<Event>)
    decreases |events|
  {
    s.Single() && (events != [] ==> AlwaysSingle(Step(s, events[0]), events[1..]))
  }

  /** No function that is called installs a pacing timer after it has called `run`. */
  ghost predicate NeverInstallsAfterRun(s: State, events: seq<Event>)
    decreases |events|
  {
    events != [] ==>
      && (Fires(s, events[0]) ==> !InstallsAfterRun(events[0].script, s.hasTimer, s.hasPacing, events[0].delay))
      && NeverInstallsAfterRun(Step(s, events[0]), events[1..])
  }

  /** If its call was the only one, the function asks twice exactly if it installs a pacing timer after
      it has called `run`. */
  lemma OnlyCallAsksTwice(s: State, script: seq<Action>, delay: nat)
    requires !s.loop && !s.timer
    ensures AsksTwice(s, script, delay) <==> InstallsAfterRun(script, s.hasTimer, s.hasPacing, delay)
  {
  }

  /** Over every interleaving, a looper runs exactly if a call is pending; and there is never more
      than one exactly if no function that is called installs a pacing timer after it has called
      `run`. */
  lemma {:induction false} OneCallPending(s: State, events: seq<Event>)
    requires s.Valid() && s.Single()
    ensures Steps(s, events).Valid()
    ensures AlwaysSingle(s, events) <==> NeverInstallsAfterRun(s, events)
    decreases |events|
  {
    hide Step, AsksTwice, InstallsAfterRun;
    if events != [] {
      var e := events[0];
      var r := Step(s, e);
      StepKeepsValid(s, e);
      if Fires(s, e) {
        OnlyCallAsksTwice(Woken(s, e), e.script, e.delay);
      } else if !e.Outside? {
        IdleStep(s, e);
      }
      if r.Single() {
        OneCallPending(r, events[1..]);
      } else {
        StepsKeepValid(r, events[1..]);
      }
    }
  }

  lemma IdleStep(s: State, e: Event)
    requires !Fires(s, e) && !e.Outside?
    ensures Step(s, e) == s
  {
  }

  lemma {:induction false} StepsKeepValid(s: State, events: seq<Event>)
    requires s.Valid()
    ensures Steps(s, events).Valid()
    decreases |events|
  {
    if events != [] {
      StepKeepsValid(s, events[0]);
      StepsKeepValid(Step(s, events[0]), events[1..]);
    }
  }

  ghost predicate InstallsTimer(script: seq<Action>) {
    exists i :: 0 <= i < |script| && script[i] == SetPacingTimer(true)
  }

  /** As long as no function installs a pacing timer, and in particular if functions only run and stop,
      a running looper always has exactly one pending call and a stopped one has none. */
  lemma {:induction false} RunAndStopOnly(s: State, events: seq<Event>)
    requires s.Valid() && s.Single()
    requires forall i :: 0 <= i < |events| && !events[i].Outside? ==> !InstallsTimer(events[i].script)
    ensures AlwaysSingle(s, events) && Steps(s, events).Valid()
    decreases |events|
  {
    hide Step, AsksTwice, InstallsTimer;
    if events != [] {
      var e := events[0];
      StepKeepsValid(s, e);
      if Fires(s, e) {
        WithoutNewTimer(Woken(s, e), e.script, e.delay);
      } else if !e.Outside? {
        IdleStep(s, e);
      }
      assert forall i :: 0 <= i < |events[1..]| ==> events[1..][i] == events[i + 1];
      RunAndStopOnly(Step(s, e), events[1..]);
    }
  }

  /** A function that installs no pacing timer does not ask twice, if its call was the only one. */
  lemma WithoutNewTimer(s: State, script: seq<Action>, delay: nat)
    requires !s.loop && !s.timer && !InstallsTimer(script)
    ensures !AsksTwice(s, script, delay)
  {
    if AsksTwice(s, script, delay) {
      var i :| 0 <= i < |script| && AsksAt(script, s.hasTimer, i);
      NoTimerStays(script, s.hasTimer, i);
    }
  }

  lemma {:induction false} NoTimerStays(script: seq<Action>, timer: bool, i: nat)
    requires i <= |script| && !InstallsTimer(script) && !TimerAfter(script[..i], timer)
    ensures !TimerAfter(script, timer)
    decreases |script|
  {
    if script != [] {
      var rest := script[1..];
      var timer' := if script[0].SetPacingTimer? then script[0].present else timer;
      assert forall j :: 0 <= j < |rest| ==> rest[j] == script[j + 1];
      assert script[0] != SetPacingTimer(true);
      if i == 0 {
        assert script[..0] == [] && rest[..0] == [];
        NoTimerStays(rest, timer', 0);
      } else {
        assert script[..i][0] == script[0] && script[..i][1..] == rest[..i - 1];
        NoTimerStays(rest, timer', i - 1);
      }
    }
  }

  /** A function that calls `run` and then installs a pacing timer asks twice. */
  lemma RunThenInstall(s: State, now: Time, delay: nat)
    requires !s.loop && !s.timer && !s.hasTimer && s.hasPacing && delay != 0
    ensures AsksTwice(s, [Action.Run(now), SetPacingTimer(true)], delay)
  {
    var script := [Action.Run(now), SetPacingTimer(true)];
    assert script[1..] == [SetPacingTimer(true)] && script[1..][1..] == [];
    assert AsksAt(script, false, 0);
    assert TimerAfter(script[1..], false) && PacingAfter(script[1..], true);
  }

  /** And two pending calls stay two through a turn of the event loop, unless the function stops or
      takes the timer away. */
  lemma TwoStayTwo(s: State, script: seq<Action>, delay: nat)
    requires s.timer && s.hasTimer
    requires forall i :: 0 <= i < |script| ==> !script[i].Stop? && script[i] != SetPacingTimer(false)
    ensures AsksTwice(s, script, delay)
  {
    forall i | 0 <= i < |script| ensures !Displaces(script, i, true, s.early, s.next) {
      TimerStays(script[..i]);
    }
  }

  lemma {:induction false} TimerStays(script: seq<Action>)
    requires forall i :: 0 <= i < |script| ==> script[i] != SetPacingTimer(false)
    ensures TimerAfter(script, true)
  {
    if script != [] {
      assert script[0] != SetPacingTimer(false);
      TimerStays(script[1..]);
    }
  }

  class FunctionLooper {
    var running: bool
    var inLoopBody: bool
    var loopScheduled: bool
    var timerScheduled: bool
    var hasPacingTimer: bool
    var hasPacingFunction: bool
    var fireLoopEarly: bool
    var nextPacingTime: Time

    ghost function View(): State
      reads this
    {
      State(running, inLoopBody, loopScheduled, timerScheduled,
            hasPacingTimer, hasPacingFunction, fireLoopEarly, nextPacingTime)
    }

    constructor ()
      ensures View().Valid() && View().Single() && !running && !hasPacingTimer && !hasPacingFunction && !fireLoopEarly
    {
      running, inLoopBody, loopScheduled, timerScheduled := false, false, false, false;
      hasPacingTimer, hasPacingFunction, fireLoopEarly, nextPacingTime := false, false, false, 0;
    }

    method Run(now: Time)
      modifies `running, `loopScheduled, `timerScheduled
      ensures View() == Ran(old(View()), now)
      ensures running
      ensures (hasPacingTimer && inLoopBody) || old(loopScheduled) ==> unchanged(`loopScheduled, `timerScheduled)
      ensures !(hasPacingTimer && inLoopBody) && !old(loopScheduled) && !old(timerScheduled) ==>
        loopScheduled && !timerScheduled
      ensures !(hasPacingTimer && inLoopBody) && old(timerScheduled) && !old(loopScheduled) ==>
        (loopScheduled <==> fireLoopEarly && nextPacingTime - now < 2000) && timerScheduled == !loopScheduled
    {
      running := true;
      if hasPacingTimer && inLoopBody {
        return;
      }
      if loopScheduled || (!fireLoopEarly && timerScheduled) {
        return;
      }
      if timerScheduled {
        var millisecondsUntilWrite := if nextPacingTime < now then 0 else (nextPacingTime - now) / 1000;
        if millisecondsUntilWrite <= 1 {
          timerScheduled := false;
        } else {
          return;
        }
      }
      loopScheduled := true;
    }

    method Stop()
      modifies `running, `loopScheduled, `timerScheduled
      ensures View() == Acted(old(View()), Action.Stop) && !running && !loopScheduled && !timerScheduled
    {
      running, loopScheduled, timerScheduled := false, false, false;
    }

    method Act(a: Action)
      modifies this
      ensures View() == Acted(old(View()), a)
    {
      match a
      case Run(now) => Run(now);
      case Stop => Stop();
      case SetPacingTimer(present) => hasPacingTimer := present;
      case SetPacingFunction(present) => hasPacingFunction := present;
      case SetFireLoopEarly(early) => fireLoopEarly := early;
    }

    /** One call of the function. */
    method Call(script: seq<Action>)
      modifies this
      ensures View() == ActedAll(old(View()), script)
    {
      hide Acted;
      var i := 0;
      assert script[0..] == script;
      while i < |script|
        invariant i <= |script| && ActedAll(View(), script[i..]) == ActedAll(old(View()), script)
      {
        assert script[i..][0] == script[i] && script[i..][1..] == script[i + 1..];
        Act(script[i]);
        i := i + 1;
      }
    }

    method SchedulePacingTimeout(delay: nat, now: Time) returns (scheduled: bool)
      modifies `timerScheduled, `nextPacingTime
      ensures scheduled <==> hasPacingFunction && hasPacingTimer && !old(timerScheduled) && delay != 0
      ensures timerScheduled <==> old(timerScheduled) || scheduled
      ensures nextPacingTime == if scheduled then now + delay else old(nextPacingTime)
    {
      if hasPacingFunction && hasPacingTimer && !timerScheduled {
        if delay != 0 {
          nextPacingTime, timerScheduled := now + delay, true;
          return true;
        }
      }
      return false;
    }

    method Reschedule(delay: nat, now: Time)
      modifies `loopScheduled, `timerScheduled, `nextPacingTime
      ensures View() == Rescheduled(old(View()), delay, now)
    {
      if running {
        var scheduled := SchedulePacingTimeout(delay, now);
        if !scheduled {
          loopScheduled := true;
        }
      }
    }

    method CommonLoopBody(script: seq<Action>, delay: nat, now: Time)
      modifies this
      ensures View() == Body(old(View()), script, delay, now)
    {
      hide ActedAll, Rescheduled;
      inLoopBody := true;
      Call(script);
      Reschedule(delay, now);
      inLoopBody := false;
    }

    /** The event loop's turn. */
    method RunLoopCallback(script: seq<Action>, delay: nat, now: Time)
      requires View().Valid() && loopScheduled
      modifies this
      ensures View() == Step(old(View()), LoopTurn(script, delay, now)) && View().Valid()
      ensures View().Single() <==> !AsksTwice(old(View()).(loop := false), script, delay)
      ensures CallDoes(old(View()).(loop := false), script, delay, now, View())
    {
      hide CallDoes, AsksTwice;
      CallLeaves(View().(loop := false), script, delay, now);
      loopScheduled := false;
      CommonLoopBody(script, delay, now);
    }

    /** The pacing timer's turn. */
    method TimeoutExpired(script: seq<Action>, delay: nat, now: Time)
      requires View().Valid() && timerScheduled
      modifies this
      ensures View() == Step(old(View()), TimerTurn(script, delay, now)) && View().Valid()
      ensures View().Single() <==> !AsksTwice(old(View()).(timer := false), script, delay)
      ensures CallDoes(old(View()).(timer := false), script, delay, now, View())
    {
      hide CallDoes, AsksTwice;
      CallLeaves(View().(timer := false), script, delay, now);
      timerScheduled := false;
      CommonLoopBody(script, delay, now);
    }
  }

  /** Every interleaving of calls from outside, turns of the event loop and turns of the timer. */
  method Interleave(looper: FunctionLooper, events: seq<Event>)
    requires looper.View().Valid()
    modifies looper
    ensures looper.View() == Steps(old(looper.View()), events) && looper.View().Valid()
  {
    hide Acted, Body, AsksTwice;
    var i := 0;
    assert events[0..] == events;
    while i < |events|
      invariant i <= |events| && looper.View().Valid()
      invariant Steps(looper.View(), events[i..]) == Steps(old(looper.View()), events)
    {
      assert events[i..][0] == events[i] && events[i..][1..] == events[i + 1..];
      StepKeepsValid(looper.View(), events[i]);
      match events[i] {
        case Outside(action) => looper.Act(action);
        case LoopTurn(script, delay, now) =>
          if looper.loopScheduled { looper.RunLoopCallback(script, delay, now); }
        case TimerTurn(script, delay, now) =>
          if looper.timerScheduled { looper.TimeoutExpired(script, delay, now); }
      }
      i := i + 1;
    }
  }
}
