/** The supervisor of the cross-process fan-out connection, between its awaits: dial,
    `LISTEN`, serve until the connection is down, report the loss, wait, dial again. */
module NotifyBus {
  import opened Wrappers

  const BACKOFF_INITIAL: nat := 1
  const BACKOFF_CAP: nat := 30

  /** Which await the supervisor is parked at; `Off` when there is no supervisor. */
  datatype Phase = Off | Dialling | Listening | Serving | Sleeping

  datatype State = State(phase: Phase, connected: bool, closing: bool, cancelled: bool, backoff: nat)

  datatype Step =
    | StartUp
    | Connects
    | ConnectFails
    | Listens
    | ListenFails
    | Dies
    | Wakes
    | ClosesBus
    | Unwinds

  /** When each can come next. `start` waits for a closed supervisor to have unwound, as
      `close` does. */
  predicate Enabled(s: State, step: Step) {
    match step
    case StartUp => true
    case Connects => s.phase == Dialling
    case ConnectFails => s.phase == Dialling
    case Listens => s.phase == Listening
    case ListenFails => s.phase == Listening
    case Dies => s.phase == Serving
    case Wakes => s.phase == Sleeping
    case ClosesBus => true
    case Unwinds => s.phase != Off && s.cancelled
  }

  /** Whether the `finally` of an attempt calls `on_lost`. */
  predicate Reports(s: State) {
    s.connected && !s.closing
  }

  /** An attempt over, one way or another, and the wait after it. */
  function Resting(s: State): State {
    s.(connected := false, phase := Sleeping, backoff := if s.backoff * 2 < BACKOFF_CAP then s.backoff * 2 else BACKOFF_CAP)
  }

  function Next(s: State, step: Step): State
    requires Enabled(s, step)
  {
    match step
    case StartUp => if s.phase == Off then s.(phase := Dialling, cancelled := false, backoff := BACKOFF_INITIAL) else s
    case Connects => s.(phase := Listening)
    case ConnectFails => Resting(s)
    case Listens => s.(phase := Serving, connected := true, backoff := BACKOFF_INITIAL)
    case ListenFails => Resting(s)
    case Dies => Resting(s)
    case Wakes => s.(phase := Dialling)
    case ClosesBus => if s.phase == Off then s else s.(closing := true, cancelled := true)
    case Unwinds => s.(phase := Off, connected := false)
  }

  /** The steps that go through an attempt's `finally`. A cancelled sleep does not. */
  predicate EndsAttempt(s: State, step: Step) {
    step in {ConnectFails, ListenFails, Dies} || (step == Unwinds && s.phase != Sleeping)
  }

  /** The call to `on_lost` a step makes, and the wait it goes into. */
  predicate Loses(s: State, step: Step) {
    EndsAttempt(s, step) && Reports(s)
  }

  function WaitOf(s: State, step: Step): Option<nat> {
    if step in {ConnectFails, ListenFails, Dies} then Some(s.backoff) else None
  }

  class PostgresNotifyBus {
    var phase: Phase
    var connected: bool
    var closing: bool
    var cancelled: bool
    var backoff: nat

    function Value(): State
      reads this
    {
      State(phase, connected, closing, cancelled, backoff)
    }

    constructor ()
      ensures Value() == Initial()
    {
      phase, connected, closing, cancelled, backoff := Off, false, false, false, BACKOFF_INITIAL;
    }

    method Start()
      modifies this
      ensures Value() == Next(old(Value()), StartUp)
    {
      if phase != Off {
        return;
      }
      phase, cancelled, backoff := Dialling, false, BACKOFF_INITIAL;
    }

    /** The `finally`: forget the connection, and say so if it had been working. */
    method Finally() returns (lost: bool)
      modifies `connected
      ensures !connected
      ensures lost <==> Reports(old(Value()))
    {
      var wasConnected := connected;
      connected := false;
      lost := wasConnected && !closing;
    }

    method Rest() returns (seconds: nat)
      modifies `phase, `backoff
      ensures seconds == old(backoff) && phase == Sleeping
      ensures backoff == if old(backoff) * 2 < BACKOFF_CAP then old(backoff) * 2 else BACKOFF_CAP
    {
      seconds := backoff;
      phase := Sleeping;
      backoff := if backoff * 2 < BACKOFF_CAP then backoff * 2 else BACKOFF_CAP;
    }

    /** What follows each await of the loop. */
    method Dialled(ok: bool) returns (lost: bool, seconds: Option<nat>)
      requires phase == Dialling
      modifies this
      ensures
        var step := if ok then Connects else ConnectFails;
        && Value() == Next(old(Value()), step)
        && lost == Loses(old(Value()), step) && seconds == WaitOf(old(Value()), step)
    {
      if ok {
        phase := Listening;
        return false, None;
      }
      lost := Finally();
      var wait := Rest();
      seconds := Some(wait);
    }

    method ListenAnswered(ok: bool) returns (lost: bool, seconds: Option<nat>)
      requires phase == Listening
      modifies this
      ensures
        var step := if ok then Listens else ListenFails;
        && Value() == Next(old(Value()), step)
        && lost == Loses(old(Value()), step) && seconds == WaitOf(old(Value()), step)
    {
      if ok {
        connected := true;
        backoff := BACKOFF_INITIAL;
        phase := Serving;
        return false, None;
      }
      lost := Finally();
      var wait := Rest();
      seconds := Some(wait);
    }

    method WentDown() returns (lost: bool, seconds: Option<nat>)
      requires phase == Serving
      modifies this
      ensures Value() == Next(old(Value()), Dies)
      ensures lost == Loses(old(Value()), Dies) && seconds == WaitOf(old(Value()), Dies)
    {
      lost := Finally();
      var wait := Rest();
      seconds := Some(wait);
    }

    method Woken()
      requires phase == Sleeping
      modifies this
      ensures Value() == Next(old(Value()), Wakes)
    {
      phase := Dialling;
    }

    method Close()
      modifies this
      ensures Value() == Next(old(Value()), ClosesBus)
    {
      if phase == Off {
        return;
      }
      closing := true;
      cancelled := true;
    }

    /** The cancellation arriving at whatever await the supervisor is parked at. */
    method Cancelled() returns (lost: bool)
      requires phase != Off && cancelled
      modifies this
      ensures Value() == Next(old(Value()), Unwinds)
      ensures lost == Loses(old(Value()), Unwinds)
    {
      lost := false;
      if phase != Sleeping {
        lost := Finally();
      } else {
        connected := false;
      }
      phase := Off;
    }
  }

  // ----------------------------------------------------------------------- every run

  function Initial(): State {
    State(Off, false, false, false, BACKOFF_INITIAL)
  }

  predicate IsRun(steps: seq<Step>)
    decreases |steps|, 0
  {
    steps == [] || (IsRun(steps[..|steps| - 1]) && Enabled(After(steps[..|steps| - 1]), steps[|steps| - 1]))
  }

  function After(steps: seq<Step>): State
    requires IsRun(steps)
    decreases |steps|, 1
  {
    if steps == [] then Initial() else Next(After(steps[..|steps| - 1]), steps[|steps| - 1])
  }

  /** Connected means serving; and a bus that was closed knows it. */
  predicate Sound(s: State) {
    && (s.connected <==> s.phase == Serving)
    && (s.cancelled ==> s.closing)
    && 1 <= s.backoff <= BACKOFF_CAP
  }

  lemma {:induction false} RunSound(steps: seq<Step>)
    requires IsRun(steps)
    ensures Sound(After(steps))
    ensures After(steps).closing ==> ClosesBus in steps
  {
    if steps != [] {
      RunSound(steps[..|steps| - 1]);
    }
  }

  function CountOf(steps: seq<Step>, step: Step): nat {
    if steps == [] then 0
    else CountOf(steps[..|steps| - 1], step) + if steps[|steps| - 1] == step then 1 else 0
  }

  /** How often a run calls `on_lost`. */
  function Losses(steps: seq<Step>): nat
    requires IsRun(steps)
  {
    if steps == [] then 0
    else
      var front := steps[..|steps| - 1];
      Losses(front) + if Loses(After(front), steps[|steps| - 1]) then 1 else 0
  }

  /** How many working connections ended without a call: by the close, or after one. */
  function Silences(steps: seq<Step>): nat
    requires IsRun(steps)
  {
    if steps == [] then 0
    else
      var front := steps[..|steps| - 1];
      Silences(front)
      + if After(front).phase == Serving && After(front).closing && steps[|steps| - 1] in {Dies, Unwinds} then 1 else 0
  }

  /** Every connection that ever listened was reported lost once, or ended silently after
      a close, or is the one being served. */
  lemma {:induction false} EveryConnectionAccounted(steps: seq<Step>)
    requires IsRun(steps)
    ensures CountOf(steps, Listens) == Losses(steps) + Silences(steps) + if After(steps).phase == Serving then 1 else 0
  {
    if steps != [] {
      var front := steps[..|steps| - 1];
      EveryConnectionAccounted(front);
      RunSound(front);
    }
  }

  /** What one step reports: the death of a working connection, unless the bus was ever
      closed. Never a failed attempt, a failed `LISTEN`, or the close itself. */
  lemma ReportedExactly(steps: seq<Step>, step: Step)
    requires IsRun(steps) && Enabled(After(steps), step)
    ensures Loses(After(steps), step) <==> step == Dies && !After(steps).closing
  {
    RunSound(steps);
  }

  /** Short of a close, `on_lost` is called once per connection lost, and for nothing
      else. */
  lemma {:induction false} OncePerLoss(steps: seq<Step>)
    requires IsRun(steps) && ClosesBus !in steps
    ensures Losses(steps) == CountOf(steps, Dies)
    ensures CountOf(steps, Listens) == Losses(steps) + if After(steps).phase == Serving then 1 else 0
  {
    if steps != [] {
      var front := steps[..|steps| - 1];
      assert steps == front + [steps[|steps| - 1]];
      OncePerLoss(front);
      RunSound(front);
      ReportedExactly(front, steps[|steps| - 1]);
    }
  }

  /** `close` is for good: nothing clears the flag it sets, so a bus started again after
      one dials and listens but never reports a loss. */
  lemma {:induction false} ClosedForGood(steps: seq<Step>, more: seq<Step>)
    requires IsRun(steps) && After(steps).closing && IsRun(steps + more)
    ensures After(steps + more).closing && Losses(steps + more) == Losses(steps)
    decreases |more|
  {
    if more == [] {
      assert steps + more == steps;
    } else {
      var front := more[..|more| - 1];
      assert (steps + more)[..|steps + more| - 1] == steps + front;
      ClosedForGood(steps, front);
    }
  }

  /** A close takes the supervisor down from wherever it is, and says nothing of the
      connection. */
  lemma CloseEnds(steps: seq<Step>)
    requires IsRun(steps) && After(steps).phase != Off
    ensures
      var closed := steps + [ClosesBus];
      && IsRun(closed) && After(closed).closing && !Loses(After(closed), Unwinds)
      && IsRun(closed + [Unwinds]) && After(closed + [Unwinds]).phase == Off && !After(closed + [Unwinds]).connected
  {
    var closed := steps + [ClosesBus];
    assert closed[..|closed| - 1] == steps;
    assert (closed + [Unwinds])[..|closed|] == closed;
    RunSound(steps);
  }

  /** The way back to a working connection, from wherever the supervisor is: it wakes and
      dials, dials and listens, listens and serves. */
  function WayBack(phase: Phase): seq<Step> {
    match phase
    case Off => [StartUp, Connects, Listens]
    case Serving => [Dies, Wakes, Connects, Listens]
    case Sleeping => [Wakes, Connects, Listens]
    case Dialling => [Connects, Listens]
    case Listening => [Listens]
  }

  /** However often dialling fails or a connection dies, that way is open, and no step of it
      is left out; at its end the connection works and the waits start again at a second. */
  lemma AlwaysRecovers(steps: seq<Step>)
    requires IsRun(steps)
    ensures
      var all := steps + WayBack(After(steps).phase);
      IsRun(all) && After(all).phase == Serving && After(all).connected && After(all).backoff == 1
    ensures forall k | 0 <= k < |WayBack(After(steps).phase)| ::
              IsRun(steps + WayBack(After(steps).phase)[..k])
              && After(steps + WayBack(After(steps).phase)[..k]).phase == PhaseBefore(WayBack(After(steps).phase)[k])
  {
    var way := WayBack(After(steps).phase);
    RunsOn(steps, way, |way|);
    assert way[..|way|] == way;
    forall k | 0 <= k < |way| ensures IsRun(steps + way[..k]) && After(steps + way[..k]).phase == PhaseBefore(way[k]) {
      RunsOn(steps, way, k);
    }
  }

  /** Where each step is taken. */
  function PhaseBefore(step: Step): Phase {
    if step == StartUp then Off
    else if step == Dies then Serving
    else if step == Wakes then Sleeping
    else if step == Connects then Dialling
    else Listening
  }

  lemma {:induction false} RunsOn(steps: seq<Step>, way: seq<Step>, k: nat)
    requires IsRun(steps) && way == WayBack(After(steps).phase) && k <= |way|
    ensures IsRun(steps + way[..k])
    ensures k < |way| ==> After(steps + way[..k]).phase == PhaseBefore(way[k])
    ensures k == |way| ==>
              var s := After(steps + way[..k]); s.phase == Serving && s.connected && s.backoff == 1
  {
    hide Next, Enabled, WayBack;
    WayJoins(After(steps).phase, k);
    if k == 0 {
      assert steps + way[..0] == steps;
    } else {
      RunsOn(steps, way, k - 1);
      var front, all := steps + way[..k - 1], steps + way[..k];
      assert all[..|all| - 1] == front && all[|all| - 1] == way[k - 1];
      StepTaken(After(front), way[k - 1]);
    }
  }

  function PhaseAfter(step: Step): Phase {
    if step == Dies then Sleeping
    else if step == Connects then Listening
    else if step == Listens then Serving
    else Dialling
  }

  lemma StepTaken(s: State, step: Step)
    requires s.phase == PhaseBefore(step) && step in {StartUp, Dies, Wakes, Connects, Listens}
    ensures Enabled(s, step) && Next(s, step).phase == PhaseAfter(step)
    ensures step == Listens ==> Next(s, step).connected && Next(s, step).backoff == 1
  {
  }

  /** Each step of the way begins where the one before left off. */
  lemma WayJoins(phase: Phase, k: nat)
    requires k <= |WayBack(phase)|
    ensures var way := WayBack(phase);
            && way != [] && way[|way| - 1] == Listens && PhaseBefore(way[0]) == phase
            && (k > 0 ==> way[k - 1] in {StartUp, Dies, Wakes, Connects, Listens})
            && (0 < k < |way| ==> PhaseAfter(way[k - 1]) == PhaseBefore(way[k]))
  {
  }

  // -------------------------------------------------------------------------- waits

  /** 1, 2, 4, 8, 16, 30, 30, ... */
  function Schedule(n: nat): nat {
    if n < 5 then Pow2(n) else 30
  }

  /** The waits since the last successful `LISTEN`, or since the supervisor was started. */
  function WaitsSince(steps: seq<Step>): seq<nat>
    requires IsRun(steps)
  {
    if steps == [] then []
    else
      var front, step := steps[..|steps| - 1], steps[|steps| - 1];
      if step == Listens || (step == StartUp && After(front).phase == Off) then []
      else
        var wait := WaitOf(After(front), step);
        if wait.Some? then WaitsSince(front) + [wait.value] else WaitsSince(front)
  }

  lemma {:induction false} WaitsDouble(steps: seq<Step>)
    requires IsRun(steps)
    ensures forall i | 0 <= i < |WaitsSince(steps)| :: WaitsSince(steps)[i] == Schedule(i)
    ensures After(steps).backoff == Schedule(|WaitsSince(steps)|)
  {
    assert Pow2(0) == 1;
    if steps != [] {
      var front := steps[..|steps| - 1];
      WaitsDouble(front);
      NextWait(|WaitsSince(front)|);
    }
  }

  lemma NextWait(n: nat)
    ensures Schedule(n + 1) == if Schedule(n) * 2 < BACKOFF_CAP then Schedule(n) * 2 else BACKOFF_CAP
  {
    assert Pow2(2) == 4;
    assert Pow2(4) == 16;
  }
}
