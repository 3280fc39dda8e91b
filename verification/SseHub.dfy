/** One user's hub: bounded queues of events for that user's open streams, and the sentinel
    that ends a stream nothing will feed any more. */
module SseHub {
  import opened Wrappers

  type StreamId = nat
  /** The events of a run are numbered; what they say is not part of this model. */
  type EventId = nat

  datatype Item = Event(id: EventId) | End

  type Queue = seq<Item>

  const QUEUE_MAX: nat := 100

  datatype Hub = Hub(streams: map<StreamId, Queue>, live: bool, lastActivity: int)

  // ------------------------------------------------------------------ one queue

  /** `put_nowait`, an event dropped when the queue is full. */
  function WithEvent(queue: Queue, e: EventId): Queue {
    if |queue| >= QUEUE_MAX then queue else queue + [Event(e)]
  }

  /** The sentinel, after making room for it from the front. */
  function WithEnd(queue: Queue): Queue {
    (if |queue| >= QUEUE_MAX then queue[|queue| - QUEUE_MAX + 1..] else queue) + [End]
  }

  predicate Ending(queue: Queue) {
    End in queue
  }

  predicate Bounded(hub: Hub) {
    forall s | s in hub.streams :: |hub.streams[s]| <= QUEUE_MAX
  }

  // -------------------------------------------------------------------- one hub

  function Touched(hub: Hub, now: int): Hub {
    hub.(lastActivity := now)
  }

  function Published(hub: Hub, e: EventId, now: int): Hub {
    Hub(map s | s in hub.streams :: WithEvent(hub.streams[s], e), hub.live, now)
  }

  function Ended(hub: Hub, now: int): Hub {
    Hub(map s | s in hub.streams :: WithEnd(hub.streams[s]), hub.live, now)
  }

  function Lost(hub: Hub, now: int): Hub {
    Ended(hub, now).(live := false)
  }

  function Ready(hub: Hub): Hub {
    hub.(live := true)
  }

  /** A stream starting: turned away when nothing feeds the hub. */
  function Started(hub: Hub, s: StreamId, now: int): Hub {
    if hub.live then Hub(hub.streams[s := []], true, now) else Touched(hub, now)
  }

  function Left(hub: Hub, s: StreamId, now: int): Hub {
    Hub(hub.streams - {s}, hub.live, now)
  }

  /** A stream taking its next item: an event is yielded, the sentinel ends it. */
  function Taken(hub: Hub, s: StreamId, now: int): Hub
    requires s in hub.streams && hub.streams[s] != []
  {
    if hub.streams[s][0] == End then Left(hub, s, now)
    else hub.(streams := hub.streams[s := hub.streams[s][1..]])
  }

  class SseHub {
    var streams: map<StreamId, Queue>
    var live: bool
    var lastActivity: int

    function Value(): Hub
      reads this
    {
      Hub(streams, live, lastActivity)
    }

    constructor (now: int)
      ensures Value() == Hub(map[], true, now)
    {
      streams, live, lastActivity := map[], true, now;
    }

    method Touch(now: int)
      modifies this
      ensures Value() == Touched(old(Value()), now)
    {
      lastActivity := now;
    }

    /** Up to the first `await` of `subscribe`. */
    method Subscribe(s: StreamId, now: int) returns (served: bool)
      requires s !in streams
      modifies this
      ensures served == old(live)
      ensures Value() == Started(old(Value()), s, now)
    {
      if !live {
        Touch(now);
        return false;
      }
      streams := streams[s := []];
      Touch(now);
      return true;
    }

    /** One turn of its loop, once something is queued. */
    method Take(s: StreamId, now: int) returns (event: Option<EventId>)
      requires s in streams && streams[s] != []
      modifies this
      ensures event == if old(streams)[s][0] == End then None else Some(old(streams)[s][0].id)
      ensures Value() == Taken(old(Value()), s, now)
    {
      var item := streams[s][0];
      if item == End {
        Leave(s, now);
        return None;
      }
      streams := streams[s := streams[s][1..]];
      return Some(item.id);
    }

    /** Its `finally`. */
    method Leave(s: StreamId, now: int)
      modifies this
      ensures Value() == Left(old(Value()), s, now)
    {
      streams := streams - {s};
      Touch(now);
    }

    method EndStreams(now: int)
      requires Bounded(Value())
      modifies this
      ensures Value() == Ended(old(Value()), now)
      ensures Bounded(Value())
    {
      Touch(now);
      ghost var was := streams;
      var todo := streams.Keys;
      while todo != {}
        invariant todo <= was.Keys == streams.Keys
        invariant live == old(live) && lastActivity == now
        invariant forall s | s in was :: streams[s] == if s in todo then was[s] else WithEnd(was[s])
      {
        var s :| s in todo;
        var queue := streams[s];
        while |queue| >= QUEUE_MAX
          invariant |queue| <= |was[s]| && queue == was[s][|was[s]| - |queue|..]
          invariant |queue| < QUEUE_MAX ==> queue == if |was[s]| >= QUEUE_MAX then was[s][|was[s]| - QUEUE_MAX + 1..] else was[s]
        {
          queue := queue[1..];
        }
        queue := queue + [End];
        streams := streams[s := queue];
        todo := todo - {s};
      }
      assert streams == Ended(old(Value()), now).streams;
    }

    method UpstreamLost(now: int)
      requires Bounded(Value())
      modifies this
      ensures Value() == Lost(old(Value()), now)
      ensures Bounded(Value())
    {
      live := false;
      EndStreams(now);
    }

    method UpstreamReady()
      modifies this
      ensures Value() == Ready(old(Value()))
    {
      live := true;
    }

    method Publish(e: EventId, now: int)
      requires Bounded(Value())
      modifies this
      ensures Value() == Published(old(Value()), e, now)
      ensures Bounded(Value())
    {
      Touch(now);
      ghost var was := streams;
      var todo := streams.Keys;
      while todo != {}
        invariant todo <= was.Keys == streams.Keys
        invariant live == old(live) && lastActivity == now
        invariant forall s | s in was :: streams[s] == if s in todo then was[s] else WithEvent(was[s], e)
      {
        var s :| s in todo;
        if |streams[s]| < QUEUE_MAX {
          streams := streams[s := streams[s] + [Event(e)]];
        }
        todo := todo - {s};
      }
      assert streams == Published(old(Value()), e, now).streams;
    }
  }

  // ------------------------------------------------------- what a stream goes through

  /** What can happen to one open stream, as its queue sees it. */
  datatype Happening = Publishing(id: EventId) | Closing | Taking

  datatype Stream = Stream(queue: Queue, delivered: seq<EventId>, over: bool)

  function After(stream: Stream, h: Happening): Stream {
    if stream.over then stream
    else match h
      case Publishing(e) => stream.(queue := WithEvent(stream.queue, e))
      case Closing => stream.(queue := WithEnd(stream.queue))
      case Taking =>
        if stream.queue == [] then stream
        else match stream.queue[0]
          case Event(e) => Stream(stream.queue[1..], stream.delivered + [e], false)
          case End => Stream(stream.queue[1..], stream.delivered, true)
  }

  /** A stream of a hub goes through what its hub goes through, and nothing that happens
      to another stream, no touch and no re-opening changes it. */
  lemma StreamOfHub(hub: Hub, s: StreamId, other: StreamId, delivered: seq<EventId>, e: EventId, now: int)
    requires s in hub.streams && other != s
    ensures
      var stream := Stream(hub.streams[s], delivered, false);
      && Published(hub, e, now).streams[s] == After(stream, Publishing(e)).queue
      && Ended(hub, now).streams[s] == After(stream, Closing).queue
      && Lost(hub, now).streams[s] == After(stream, Closing).queue
      && (hub.streams[s] != [] ==>
            var taken := Taken(hub, s, now).streams;
            if After(stream, Taking).over then s !in taken else s in taken && taken[s] == After(stream, Taking).queue)
      && s in Left(hub, other, now).streams && Left(hub, other, now).streams[s] == hub.streams[s]
      && s in Started(hub, other, now).streams && Started(hub, other, now).streams[s] == hub.streams[s]
      && Touched(hub, now).streams == hub.streams && Ready(hub).streams == hub.streams
      && (other in hub.streams && hub.streams[other] != [] ==>
            s in Taken(hub, other, now).streams && Taken(hub, other, now).streams[s] == hub.streams[s])
  {
  }

  function Run(hs: seq<Happening>): Stream {
    if hs == [] then Stream([], [], false)
    else After(Run(hs[..|hs| - 1]), hs[|hs| - 1])
  }

  /** Everything published while the stream was open. */
  function Offered(hs: seq<Happening>): seq<EventId> {
    if hs == [] then []
    else
      var front, last := hs[..|hs| - 1], hs[|hs| - 1];
      Offered(front) + if last.Publishing? && !Run(front).over then [last.id] else []
  }

  /** In order, with some left out. */
  predicate Within(some: seq<EventId>, all: seq<EventId>)
    decreases |all|
  {
    || some == []
    || (all != [] &&
        (|| Within(some, all[..|all| - 1])
         || (some[|some| - 1] == all[|all| - 1] && Within(some[..|some| - 1], all[..|all| - 1]))))
  }

  function EventsOf(queue: Queue): seq<EventId> {
    if queue == [] then []
    else (if queue[0].Event? then [queue[0].id] else []) + EventsOf(queue[1..])
  }

  lemma {:induction false} EventsAppend(a: Queue, b: Queue)
    ensures EventsOf(a + b) == EventsOf(a) + EventsOf(b)
  {
    if a == [] {
      assert a + b == b;
    } else {
      EventsAppend(a[1..], b);
      assert (a + b)[0] == a[0] && (a + b)[1..] == a[1..] + b;
    }
  }

  lemma {:induction false} WithinLonger(some: seq<EventId>, all: seq<EventId>, more: seq<EventId>)
    requires Within(some, all)
    ensures Within(some, all + more)
    decreases |more|
  {
    if more == [] {
      assert all + more == all;
    } else {
      var front := more[..|more| - 1];
      WithinLonger(some, all, front);
      assert (all + more)[..|all + more| - 1] == all + front;
    }
  }

  lemma WithinBoth(some: seq<EventId>, all: seq<EventId>, e: EventId)
    requires Within(some, all)
    ensures Within(some + [e], all + [e])
  {
    assert (some + [e])[..|some|] == some && (all + [e])[..|all|] == all;
  }

  /** Leaving more out keeps what is left in order. */
  lemma {:induction false} WithinWithout(a: seq<EventId>, mid: seq<EventId>, b: seq<EventId>, all: seq<EventId>)
    requires Within(a + mid + b, all)
    ensures Within(a + b, all)
    decreases |all|, |mid|
  {
    var some := a + mid + b;
    if a + b == [] {
    } else {
      var front := all[..|all| - 1];
      if Within(some, front) {
        WithinWithout(a, mid, b, front);
      } else if b != [] {
        var shorter := b[..|b| - 1];
        assert some[..|some| - 1] == a + mid + shorter;
        WithinWithout(a, mid, shorter, front);
        assert (a + b)[..|a + b| - 1] == a + shorter;
      } else if mid != [] {
        var shorter := mid[..|mid| - 1];
        assert b == [] && some[..|some| - 1] == a + shorter + b;
        WithinWithout(a, shorter, b, front);
        WithinLonger(a + b, front, [all[|all| - 1]]);
        assert all == front + [all[|all| - 1]];
      } else {
        assert a + mid + b == a + b;
      }
    }
  }

  /** What a stream has delivered and still has queued. */
  function Backlog(s: Stream): seq<EventId> {
    s.delivered + EventsOf(s.queue)
  }

  lemma BacklogPublishing(s: Stream, e: EventId)
    requires !s.over
    ensures
      var t := After(s, Publishing(e));
      Backlog(t) == if |s.queue| >= QUEUE_MAX then Backlog(s) else Backlog(s) + [e]
  {
    if |s.queue| < QUEUE_MAX {
      EventsAppend(s.queue, [Event(e)]);
      assert EventsOf([Event(e)]) == [e];
      assert s.delivered + (EventsOf(s.queue) + [e]) == (s.delivered + EventsOf(s.queue)) + [e];
    }
  }

  lemma BacklogTaking(s: Stream)
    ensures Backlog(After(s, Taking)) == Backlog(s)
  {
    if !s.over && s.queue != [] && s.queue[0].Event? {
      var e, rest := s.queue[0].id, EventsOf(s.queue[1..]);
      assert (s.delivered + [e]) + rest == s.delivered + ([e] + rest);
    }
  }

  lemma BacklogClosing(s: Stream) returns (dropped: seq<EventId>, kept: seq<EventId>)
    requires !s.over
    ensures Backlog(s) == s.delivered + dropped + kept
    ensures Backlog(After(s, Closing)) == s.delivered + kept
  {
    var keptItems := if |s.queue| >= QUEUE_MAX then s.queue[|s.queue| - QUEUE_MAX + 1..] else s.queue;
    var droppedItems := s.queue[..|s.queue| - |keptItems|];
    dropped, kept := EventsOf(droppedItems), EventsOf(keptItems);
    assert s.queue == droppedItems + keptItems;
    EventsAppend(droppedItems, keptItems);
    Associates(s.delivered, dropped, kept);
    EndAppended(keptItems);
  }

  lemma Associates(a: seq<EventId>, b: seq<EventId>, c: seq<EventId>)
    ensures a + (b + c) == a + b + c
  {
  }

  lemma EndAppended(queue: Queue)
    ensures EventsOf(queue + [End]) == EventsOf(queue)
  {
    EventsAppend(queue, [End]);
    assert EventsOf(queue) + [] == EventsOf(queue);
  }

  lemma OneHappening(s: Stream, offered: seq<EventId>, h: Happening)
    requires |s.queue| <= QUEUE_MAX && Within(Backlog(s), offered)
    ensures |After(s, h).queue| <= QUEUE_MAX
    ensures Within(Backlog(After(s, h)), offered + if h.Publishing? && !s.over then [h.id] else [])
  {
    hide Backlog, Within;
    assert offered + [] == offered;
    match h
    case Publishing(e) =>
      WithinLonger(Backlog(s), offered, [e]);
      WithinBoth(Backlog(s), offered, e);
      if !s.over {
        BacklogPublishing(s, e);
      }
    case Taking =>
      BacklogTaking(s);
    case Closing =>
      if !s.over {
        var dropped, kept := BacklogClosing(s);
        WithinWithout(s.delivered, dropped, kept, offered);
      }
  }

  /** Over any run a queue is never longer than its bound, and what a stream delivers, then
      what it has queued, is what was published while it was open: in order, with some
      left out. */
  lemma {:induction false} DeliversInOrder(hs: seq<Happening>)
    ensures |Run(hs).queue| <= 100
    ensures Within(Backlog(Run(hs)), Offered(hs)) && Within(Run(hs).delivered, Offered(hs))
  {
    hide Within, After;
    if hs == [] {
      assert Within([], []) by {
        NothingWithin();
      }
    } else {
      DeliversInOrder(hs[..|hs| - 1]);
      OneHappening(Run(hs[..|hs| - 1]), Offered(hs[..|hs| - 1]), hs[|hs| - 1]);
    }
    var s := Run(hs);
    assert s.delivered + EventsOf(s.queue) == s.delivered + EventsOf(s.queue) + [];
    WithinWithout(s.delivered, EventsOf(s.queue), [], Offered(hs));
    assert s.delivered + [] == s.delivered;
  }

  lemma NothingWithin()
    ensures Within([], [])
  {
  }

  /** Once a stream has been told to end, it stays told until it has ended, whatever is
      published or told again, even when that pushes an older sentinel out. */
  lemma {:induction false} EndStaysQueued(s: Stream, hs: seq<Happening>)
    requires Ending(s.queue) || s.over
    ensures var t := AfterAll(s, hs); Ending(t.queue) || t.over
    decreases |hs|
  {
    if hs != [] {
      var next := After(s, hs[0]);
      assert s.over || hs[0].Taking? || Ending(next.queue) by {
        if !s.over && Ending(s.queue) && hs[0].Publishing? {
          var i :| 0 <= i < |s.queue| && s.queue[i] == End;
          assert next.queue[i] == End;
        }
      }
      if !s.over && hs[0].Taking? && s.queue[0].Event? {
        assert s.queue == [s.queue[0]] + s.queue[1..];
      }
      EndStaysQueued(next, hs[1..]);
    }
  }

  function AfterAll(s: Stream, hs: seq<Happening>): Stream
    decreases |hs|
  {
    if hs == [] then s else AfterAll(After(s, hs[0]), hs[1..])
  }

  /** A reader that keeps up misses nothing. */
  ghost predicate KeepsUp(hs: seq<Happening>) {
    forall i | 0 <= i < |hs| :: hs[i] != Closing && |Run(hs[..i]).queue| < 100
  }

  lemma {:induction false} NothingDropped(hs: seq<Happening>)
    requires KeepsUp(hs)
    ensures Backlog(Run(hs)) == Offered(hs)
    ensures !Run(hs).over && !Ending(Run(hs).queue)
  {
    hide Backlog;
    NoBacklog();
    if hs != [] {
      var front, h := hs[..|hs| - 1], hs[|hs| - 1];
      forall i | 0 <= i < |front| ensures front[i] != Closing && |Run(front[..i]).queue| < QUEUE_MAX {
        assert front[..i] == hs[..i] && hs[i] != Closing;
      }
      NothingDropped(front);
      assert hs[..|hs| - 1] == front && h != Closing;
      if h.Publishing? {
        BacklogPublishing(Run(front), h.id);
      } else {
        BacklogTaking(Run(front));
        TakenNotEnding(Run(front));
      }
    }
  }

  lemma NoBacklog()
    ensures Backlog(Stream([], [], false)) == []
  {
  }

  lemma TakenNotEnding(s: Stream)
    requires !s.over && !Ending(s.queue)
    ensures !After(s, Taking).over && !Ending(After(s, Taking).queue)
  {
    if s.queue != [] {
      assert s.queue[0] in s.queue;
    }
  }
}
