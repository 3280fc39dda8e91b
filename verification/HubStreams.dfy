/** What every open stream of every hub has been through over a run of the registry: the
    laws of one queue hold of it. */
module HubStreams {
  import opened Wrappers
  import opened SseHub
  import opened HubRegistry
  import opened HubSafety

  predicate Open(s: State, h: HubId, r: StreamId) {
    h in s.table && r in s.table[h].streams
  }

  /** `r` is served on the hub `h` by this step. */
  predicate Opens(s: State, step: Step, h: HubId, r: StreamId) {
    step == Start(r) && r in s.requests && s.requests[r].hub == h && h in s.table && s.table[h].live
  }

  /** A listener's callback finds itself still registered, and the hub `h` with it. */
  predicate FeedLost(s: State, task: TaskId, h: HubId) {
    && task in s.tasks
    && var user := s.tasks[task].user;
       user in s.listeners && s.listeners[user] == task && user in s.hubs && s.hubs[user] == h
  }

  /** What a step does to a stream that is open, if anything. */
  function Happens(s: State, step: Step, h: HubId, r: StreamId): Option<Happening> {
    match step
    case Notify(g, e) => if g == h then Some(Publishing(e)) else None
    case Take(g, q) => if g == h && q == r then Some(Taking) else None
    case CallBack(task) => if FeedLost(s, task, h) then Some(Closing) else None
    case LoseFanout => if h in s.hubs.Values then Some(Closing) else None
    case Close(_) => if h in s.hubs.Values then Some(Closing) else None
    case _ => None
  }

  /** Whether the stream was opened before the last of `n` steps, and not anew by it. */
  predicate Lasts(states: seq<State>, steps: seq<Step>, h: HubId, r: StreamId, n: nat)
    requires n <= |steps| && |states| == |steps| + 1
  {
    n > 0 && Open(states[n - 1], h, r) && !Opens(states[n - 1], steps[n - 1], h, r)
  }

  /** Everything that happened to the stream since it was opened. */
  function History(states: seq<State>, steps: seq<Step>, h: HubId, r: StreamId, n: nat): seq<Happening>
    requires n <= |steps| && |states| == |steps| + 1
  {
    if !Lasts(states, steps, h, r, n) then []
    else
      var before := History(states, steps, h, r, n - 1);
      match Happens(states[n - 1], steps[n - 1], h, r)
      case None => before
      case Some(happening) => before + [happening]
  }

  /** The events the hub was notified of since the stream was opened. */
  function Noted(states: seq<State>, steps: seq<Step>, h: HubId, r: StreamId, n: nat): seq<EventId>
    requires n <= |steps| && |states| == |steps| + 1
  {
    if !Lasts(states, steps, h, r, n) then []
    else
      Noted(states, steps, h, r, n - 1) +
      (if steps[n - 1].Notify? && steps[n - 1].hub == h then [steps[n - 1].event] else [])
  }

  /** What the stream sent to its browser. */
  function Sent(states: seq<State>, steps: seq<Step>, h: HubId, r: StreamId, n: nat): seq<EventId>
    requires n <= |steps| && |states| == |steps| + 1
  {
    if !Lasts(states, steps, h, r, n) then []
    else Sent(states, steps, h, r, n - 1) + Yields(states[n - 1], steps[n - 1], h, r)
  }

  function Yields(s: State, step: Step, h: HubId, r: StreamId): seq<EventId>
    requires Open(s, h, r)
  {
    var queue := s.table[h].streams[r];
    if step == Take(h, r) && queue != [] && queue[0].Event? then [queue[0].id] else []
  }

  // ------------------------------------------------------------------- one step

  function AfterStep(stream: Stream, happening: Option<Happening>): Stream {
    match happening
    case None => stream
    case Some(h) => After(stream, h)
  }

  function StreamOf(s: State, h: HubId, r: StreamId, sent: seq<EventId>): Stream
    requires Open(s, h, r)
  {
    Stream(s.table[h].streams[r], sent, false)
  }

  /** An open stream stays open through what happens to it, until it takes its sentinel or
      its browser leaves. */
  ghost predicate Follows(s: State, step: Step, h: HubId, r: StreamId, sent: seq<EventId>)
    requires Known(s) && Enabled(s, step) && Open(s, h, r)
  {
    var t, after := Next(s, step), AfterStep(StreamOf(s, h, r, sent), Happens(s, step, h, r));
    if Open(t, h, r) then StreamOf(t, h, r, sent + Yields(s, step, h, r)) == after
    else step == Leave(h, r) || after.over
  }

  lemma StreamStep(s: State, step: Step, h: HubId, r: StreamId, sent: seq<EventId>)
    requires Known(s) && Enabled(s, step) && Open(s, h, r) && !Opens(s, step, h, r)
    ensures Follows(s, step, h, r, sent)
  {
    match step
    case Tick(_) => QuietStep(s, step, h, r, sent);
    case Arm(_, _, _, _) => ArmQuiet(s, step, h, r); QuietStep(s, step, h, r, sent);
    case Start(_) => QuietStep(s, step, h, r, sent);
    case Notify(_, _) => OneHubStep(s, step, h, r, sent);
    case Take(_, _) => OneHubStep(s, step, h, r, sent);
    case Leave(_, _) => LeaveStep(s, step, h, r, sent);
    case Finish(_) => QuietStep(s, step, h, r, sent);
    case CallBack(_) => EndingStep(s, step, h, r, sent);
    case Sweep(_, _) => QuietStep(s, step, h, r, sent);
    case LoseFanout => EndingStep(s, step, h, r, sent);
    case Close(_) => EndingStep(s, step, h, r, sent);
    case CancelNext => QuietStep(s, step, h, r, sent);
  }

  lemma ArmQuiet(s: State, step: Step, h: HubId, r: StreamId)
    requires Known(s) && Enabled(s, step) && Open(s, h, r) && step.Arm?
    ensures Open(Next(s, step), h, r) && Next(s, step).table[h].streams[r] == s.table[h].streams[r]
  {
    hide Used;
  }

  lemma QuietStep(s: State, step: Step, h: HubId, r: StreamId, sent: seq<EventId>)
    requires Known(s) && Enabled(s, step) && Open(s, h, r) && !Opens(s, step, h, r)
    requires step.Tick? || step.Start? || step.Finish? || step.Sweep? || step.CancelNext? ||
             (step.Arm? && Open(Next(s, step), h, r) && Next(s, step).table[h].streams[r] == s.table[h].streams[r])
    ensures Follows(s, step, h, r, sent)
  {
    assert sent + [] == sent;
    hide Used, Armed, Doomed, Idle;
  }

  lemma OneHubStep(s: State, step: Step, h: HubId, r: StreamId, sent: seq<EventId>)
    requires Known(s) && Enabled(s, step) && Open(s, h, r) && (step.Notify? || step.Take?)
    ensures Follows(s, step, h, r, sent)
  {
    assert sent + [] == sent;
    hide WithEvent;
  }

  lemma LeaveStep(s: State, step: Step, h: HubId, r: StreamId, sent: seq<EventId>)
    requires Known(s) && Enabled(s, step) && Open(s, h, r) && step.Leave?
    ensures Follows(s, step, h, r, sent)
  {
    assert sent + [] == sent;
  }

  lemma EndingStep(s: State, step: Step, h: HubId, r: StreamId, sent: seq<EventId>)
    requires Known(s) && Enabled(s, step) && Open(s, h, r) && (step.CallBack? || step.LoseFanout? || step.Close?)
    ensures Follows(s, step, h, r, sent)
  {
    assert sent + [] == sent;
    EndedHub(s, step, h, r);
    assert r in s.table[h].streams;
    hide Ended, Lost, WithEnd, Enumerates, Next;
  }

  lemma EndedHub(s: State, step: Step, h: HubId, r: StreamId)
    requires Known(s) && Enabled(s, step) && Open(s, h, r) && (step.CallBack? || step.LoseFanout? || step.Close?)
    ensures
      var t := Next(s, step);
      && Open(t, h, r)
      && t.table[h].streams[r] == if Happens(s, step, h, r) == Some(Closing) then WithEnd(s.table[h].streams[r]) else s.table[h].streams[r]
    ensures Happens(s, step, h, r) == Some(Closing) || Happens(s, step, h, r) == None
  {
    hide WithEnd, Enumerates, Doomed;
  }

  lemma ArmOpensNone(s: State, step: Step, h: HubId, r: StreamId)
    requires Known(s) && Enabled(s, step) && step.Arm?
    ensures Open(Next(s, step), h, r) ==> Open(s, h, r)
  {
    hide Used;
  }

  /** A stream opens empty. */
  lemma OpensEmpty(s: State, step: Step, h: HubId, r: StreamId)
    requires Known(s) && Enabled(s, step) && Open(Next(s, step), h, r)
    requires !Open(s, h, r) || Opens(s, step, h, r)
    ensures Next(s, step).table[h].streams[r] == []
  {
    hide Used, Enumerates, Doomed, Idle, WithEnd, WithEvent, FeedLost;
    if step.Arm? {
      ArmOpensNone(s, step, h, r);
    } else {
      hide Armed, Asked;
    }
  }

  // ------------------------------------------------------------------- a whole run

  /** At every moment of every run the queue of each open stream is what its own history
      makes of an empty one, and what it has sent is what was delivered. */
  lemma {:induction false} StreamIsRun(now: int, steps: seq<Step>, states: seq<State>, h: HubId, r: StreamId, n: nat)
    requires IsRun(Initial(now), steps, states) && n < |states| && Open(states[n], h, r)
    ensures Run(History(states, steps, h, r, n)) == StreamOf(states[n], h, r, Sent(states, steps, h, r, n))
  {
    assert !Open(states[0], h, r);
    assert TakenAt(steps, states, n - 1);
    hide Follows, Yields, Happens, Open, Opens, Next, After;
    var before := Sent(states, steps, h, r, n - 1);
    if Lasts(states, steps, h, r, n) {
      StreamIsRun(now, steps, states, h, r, n - 1);
      StreamStep(states[n - 1], steps[n - 1], h, r, before);
      RunStep(states, steps, h, r, n);
      assert Follows(states[n - 1], steps[n - 1], h, r, before);
      FollowsOpen(states[n - 1], steps[n - 1], h, r, before);
    } else {
      OpensEmpty(states[n - 1], steps[n - 1], h, r);
    }
  }

  lemma FollowsOpen(s: State, step: Step, h: HubId, r: StreamId, sent: seq<EventId>)
    requires Known(s) && Enabled(s, step) && Open(s, h, r) && Follows(s, step, h, r, sent) && Open(Next(s, step), h, r)
    ensures StreamOf(Next(s, step), h, r, sent + Yields(s, step, h, r)) == AfterStep(StreamOf(s, h, r, sent), Happens(s, step, h, r))
  {
  }

  lemma RunStep(states: seq<State>, steps: seq<Step>, h: HubId, r: StreamId, n: nat)
    requires n <= |steps| && |states| == |steps| + 1
    requires Lasts(states, steps, h, r, n)
    ensures Run(History(states, steps, h, r, n)) ==
            AfterStep(Run(History(states, steps, h, r, n - 1)), Happens(states[n - 1], steps[n - 1], h, r))
  {
    hide Happens, After, Open, Opens;
    var before := History(states, steps, h, r, n - 1);
    match Happens(states[n - 1], steps[n - 1], h, r)
    case None =>
    case Some(happening) =>
      var all := before + [happening];
      assert all[..|all| - 1] == before;
  }

  /** A stream that was open and is no more has taken its sentinel, or its browser left. */
  lemma StreamGoes(now: int, steps: seq<Step>, states: seq<State>, h: HubId, r: StreamId, n: nat)
    requires IsRun(Initial(now), steps, states) && 0 < n < |states|
    requires Open(states[n - 1], h, r) && !Open(states[n], h, r)
    ensures steps[n - 1] == Leave(h, r) || Run(History(states, steps, h, r, n)).over
  {
    assert TakenAt(steps, states, n - 1);
    var s, step, before := states[n - 1], steps[n - 1], Sent(states, steps, h, r, n - 1);
    OpensOpen(s, step, h, r);
    hide Yields, Happens, Open, Opens, Next, After;
    StreamIsRun(now, steps, states, h, r, n - 1);
    StreamStep(s, step, h, r, before);
    RunStep(states, steps, h, r, n);
  }

  lemma OpensOpen(s: State, step: Step, h: HubId, r: StreamId)
    requires Known(s) && Enabled(s, step)
    ensures Opens(s, step, h, r) ==> Open(Next(s, step), h, r)
  {
  }

  /** What was offered to the stream is what its hub was notified of since it opened. */
  lemma {:induction false} OfferedIsNoted(now: int, steps: seq<Step>, states: seq<State>, h: HubId, r: StreamId, n: nat)
    requires IsRun(Initial(now), steps, states) && n < |states| && Open(states[n], h, r)
    ensures Offered(History(states, steps, h, r, n)) == Noted(states, steps, h, r, n)
  {
    hide Open, Opens, Next, After, Known;
    if Lasts(states, steps, h, r, n) {
      OfferedIsNoted(now, steps, states, h, r, n - 1);
      StreamIsRun(now, steps, states, h, r, n - 1);
      var before := History(states, steps, h, r, n - 1);
      match Happens(states[n - 1], steps[n - 1], h, r)
      case None => assert Noted(states, steps, h, r, n - 1) + [] == Noted(states, steps, h, r, n - 1);
      case Some(happening) =>
        var all := before + [happening];
        assert all[..|all| - 1] == before;
    }
  }

  /** Over every run, whatever the other users, streams and listeners do: a stream's queue
      stays within its bound, and what it has sent, then what it has queued, is what its
      hub was notified of while it was open, in order and with nothing twice; whatever is
      missing was dropped for want of room. */
  lemma EveryStreamInOrder(now: int, steps: seq<Step>, states: seq<State>, h: HubId, r: StreamId, n: nat)
    requires IsRun(Initial(now), steps, states) && n < |states| && Open(states[n], h, r)
    ensures |states[n].table[h].streams[r]| <= 100
    ensures Within(Sent(states, steps, h, r, n) + EventsOf(states[n].table[h].streams[r]), Noted(states, steps, h, r, n))
  {
    hide Within;
    StreamIsRun(now, steps, states, h, r, n);
    OfferedIsNoted(now, steps, states, h, r, n);
    DeliversInOrder(History(states, steps, h, r, n));
  }

  /** The queue had room before every step since the stream opened. */
  predicate HadRoom(states: seq<State>, steps: seq<Step>, h: HubId, r: StreamId, n: nat)
    requires n <= |steps| && |states| == |steps| + 1
  {
    Lasts(states, steps, h, r, n) ==>
      |states[n - 1].table[h].streams[r]| < 100 && HadRoom(states, steps, h, r, n - 1)
  }

  lemma OneKept(s: Stream, happening: Option<Happening>)
    requires !s.over && |s.queue| < QUEUE_MAX
    requires var t := AfterStep(s, happening); !t.over && !Ending(t.queue)
    ensures !Ending(s.queue)
    ensures
      Backlog(AfterStep(s, happening)) ==
        Backlog(s) + if happening.Some? && happening.value.Publishing? then [happening.value.id] else []
  {
    match happening
    case None =>
    case Some(Publishing(e)) => BacklogPublishing(s, e);
    case Some(Closing) =>
    case Some(Taking) =>
      BacklogTaking(s);
      if s.queue != [] {
        assert s.queue == [s.queue[0]] + s.queue[1..];
      }
  }

  /** And nothing is missing of a stream that had room all along and has not been told to
      end. */
  lemma {:induction false} KeptUpStreamIsWhole(now: int, steps: seq<Step>, states: seq<State>, h: HubId, r: StreamId, n: nat)
    requires IsRun(Initial(now), steps, states) && n < |states| && Open(states[n], h, r)
    requires HadRoom(states, steps, h, r, n) && !Ending(states[n].table[h].streams[r])
    ensures Sent(states, steps, h, r, n) + EventsOf(states[n].table[h].streams[r]) == Noted(states, steps, h, r, n)
  {
    StreamIsRun(now, steps, states, h, r, n);
    if Lasts(states, steps, h, r, n) {
      hide Open, Opens, Next, After, Known, IsRun, Ending, WithEvent, WithEnd, Happens, Yields, Sent;
      StreamIsRun(now, steps, states, h, r, n - 1);
      RunStep(states, steps, h, r, n);
      OneKept(Run(History(states, steps, h, r, n - 1)), Happens(states[n - 1], steps[n - 1], h, r));
      KeptUpStreamIsWhole(now, steps, states, h, r, n - 1);
      HappensNoted(states[n - 1], steps[n - 1], h, r);
    } else {
      EmptyIsNothing(states, steps, h, r, n);
    }
  }

  lemma HappensNoted(s: State, step: Step, h: HubId, r: StreamId)
    ensures
      var happening := Happens(s, step, h, r);
      (if happening.Some? && happening.value.Publishing? then [happening.value.id] else []) ==
      (if step.Notify? && step.hub == h then [step.event] else [])
  {
  }

  lemma EmptyIsNothing(states: seq<State>, steps: seq<Step>, h: HubId, r: StreamId, n: nat)
    requires n <= |steps| && |states| == |steps| + 1 && Open(states[n], h, r) && !Lasts(states, steps, h, r, n)
    requires Run(History(states, steps, h, r, n)) == StreamOf(states[n], h, r, Sent(states, steps, h, r, n))
    ensures Sent(states, steps, h, r, n) + EventsOf(states[n].table[h].streams[r]) == Noted(states, steps, h, r, n) == []
  {
  }

  // ------------------------------------------------------------------- the idle clock

  /** What counts as a hub being used: a request or a stream for it, a note, a stream ending,
      and its streams being told to end. Reading an event on does not. */
  predicate Uses(s: State, step: Step, h: HubId)
    requires Enabled(s, step)
  {
    match step
    case Arm(user, newHub, _, _) => HubOf(s, user, newHub) == h
    case Start(r) => s.requests[r].hub == h
    case Notify(g, _) => g == h
    case Take(g, r) => g == h && s.table[h].streams[r][0] == End
    case Leave(g, _) => g == h
    case CallBack(task) => FeedLost(s, task, h)
    case LoseFanout => h in s.hubs.Values
    case Close(_) => h in s.hubs.Values
    case _ => false
  }

  lemma UseSetsTheClock(s: State, step: Step, h: HubId)
    requires Known(s) && Enabled(s, step)
    ensures h in Next(s, step).table <==> h in s.table || (step.Arm? && Uses(s, step, h))
    ensures h in Next(s, step).table ==>
              Next(s, step).table[h].lastActivity == if Uses(s, step, h) then s.now else s.table[h].lastActivity
  {
    hide HubRegistry.Used, Enumerates, Doomed, Idle, WithEnd, WithEvent;
    if step.Arm? {
      ArmSetsTheClock(s, step, h);
    } else {
      hide Armed, Asked;
    }
  }

  lemma ArmSetsTheClock(s: State, step: Step, h: HubId)
    requires Known(s) && Enabled(s, step) && step.Arm?
    ensures h in Next(s, step).table <==> h in s.table || Uses(s, step, h)
    ensures h in Next(s, step).table ==>
              Next(s, step).table[h].lastActivity == if Uses(s, step, h) then s.now else s.table[h].lastActivity
  {
    hide HubRegistry.Used;
  }

  /** The clock at the last use of a hub in the first `n` steps. */
  function LastUse(states: seq<State>, steps: seq<Step>, h: HubId, n: nat): Option<int>
    requires n <= |steps| && |states| == |steps| + 1 && IsRun(states[0], steps, states)
  {
    if n == 0 then None
    else
      assert TakenAt(steps, states, n - 1);
      if Uses(states[n - 1], steps[n - 1], h) then Some(states[n - 1].now) else LastUse(states, steps, h, n - 1)
  }

  /** The time the sweep goes by is always that of the hub's last use. */
  lemma {:induction false} ClockIsLastUse(now: int, steps: seq<Step>, states: seq<State>, h: HubId, n: nat)
    requires IsRun(Initial(now), steps, states) && n < |states|
    ensures h in states[n].table ==> LastUse(states, steps, h, n) == Some(states[n].table[h].lastActivity)
  {
    if n > 0 {
      assert TakenAt(steps, states, n - 1);
      ClockIsLastUse(now, steps, states, h, n - 1);
      UseSetsTheClock(states[n - 1], steps[n - 1], h);
      hide Next, Enabled, Known, Uses;
    }
  }
}
