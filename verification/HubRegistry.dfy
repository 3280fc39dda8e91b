/** The registry of hubs and listeners, as the atomic steps between awaits of everything
    that touches it: requests arming a listener and starting their stream, listeners
    dying, done-callbacks running late, the idle sweep, a lost fan-out, shutdown. */
module HubRegistry {
  import opened Wrappers
  import opened SseHub

  type UserId = nat
  type HubId = nat
  type TaskId = nat

  /** A listener task. Once `Stopped` its done-callback is due, and has run when `Settled`.
      A doomed one has been handed over to be cancelled. */
  datatype Status = Running | Stopped | Settled

  datatype Task = Task(user: UserId, hub: HubId, status: Status, doomed: bool)

  /** A request between arming the listener and starting its stream; its stream will bear
      the request's own number. */
  datatype Request = Request(hub: HubId, armedAt: int)

  /** `hubs` and `listeners` are the registry's own two dictionaries; the rest is what the
      process holds besides. While a close is under way it awaits one cancelled task, and
      `closing` lists those it has collected and has still to cancel. */
  datatype State = State(
    hubs: map<UserId, HubId>,
    listeners: map<UserId, TaskId>,
    table: map<HubId, Hub>,
    tasks: map<TaskId, Task>,
    requests: map<StreamId, Request>,
    awaited: Option<TaskId>,
    closing: seq<TaskId>,
    now: int)

  /** `idle_seconds`. */
  const IDLE: int := 1800

  datatype Step =
    | Tick(seconds: nat)
    | Arm(user: UserId, newHub: HubId, newTask: TaskId, request: StreamId)
    | Start(request: StreamId)
    | Notify(hub: HubId, event: EventId)
    | Take(hub: HubId, stream: StreamId)
    | Leave(hub: HubId, stream: StreamId)
    | Finish(task: TaskId)
    | CallBack(task: TaskId)
    | Sweep(user: UserId, cutoff: int)
    | LoseFanout
    | Close(order: seq<TaskId>)
    | CancelNext

  predicate Used(s: State, stream: StreamId) {
    stream in s.requests || exists h | h in s.table :: stream in s.table[h].streams
  }

  /** When a step can be taken at all. New hubs, tasks and requests are new; the cutoff of
      a sweep was read from the clock at some earlier moment; a close is called once at a
      time, takes the listeners in some order, and goes on when the task it awaits is over. */
  predicate Enabled(s: State, step: Step) {
    match step
    case Tick(seconds) => true
    case Arm(user, newHub, newTask, request) =>
      newHub !in s.table && newTask !in s.tasks && !Used(s, request)
    case Start(request) => request in s.requests && s.requests[request].hub in s.table
    case Notify(hub, event) => hub in s.table
    case Take(hub, stream) => hub in s.table && stream in s.table[hub].streams && s.table[hub].streams[stream] != []
    case Leave(hub, stream) => hub in s.table && stream in s.table[hub].streams
    case Finish(task) => task in s.tasks && s.tasks[task].status == Running
    case CallBack(task) => task in s.tasks && s.tasks[task].status == Stopped
    case Sweep(user, cutoff) => cutoff <= s.now - IDLE && (user in s.hubs ==> s.hubs[user] in s.table)
    case LoseFanout => true
    case Close(order) => s.awaited.None? && Enumerates(order, s.listeners)
    case CancelNext => s.awaited.Some? && s.awaited.value in s.tasks && s.tasks[s.awaited.value].status != Running
  }

  predicate Enumerates(order: seq<TaskId>, listeners: map<UserId, TaskId>) {
    && Distinct(order)
    && (forall u | u in listeners :: listeners[u] in order)
    && (forall t | t in order :: exists u | u in listeners :: listeners[u] == t)
  }

  function HubOf(s: State, user: UserId, newHub: HubId): HubId {
    if user in s.hubs then s.hubs[user] else newHub
  }

  /** `ensure_listener` and `hub_for`, which never give way to anything else. */
  function Armed(s: State, user: UserId, newHub: HubId, newTask: TaskId, request: StreamId): State
    requires user in s.hubs ==> s.hubs[user] in s.table
    requires user in s.listeners ==> s.listeners[user] in s.tasks
  {
    var t := Asked(s, user, newHub, request);
    if user in s.listeners && s.tasks[s.listeners[user]].status == Running then t
    else
      t.(table := t.table[t.hubs[user] := Ready(t.table[t.hubs[user]])],
         tasks := s.tasks[newTask := Task(user, t.hubs[user], Running, false)],
         listeners := s.listeners[user := newTask])
  }

  /** The hub found or made, and touched; the request is under way. */
  function Asked(s: State, user: UserId, newHub: HubId, request: StreamId): (t: State)
    requires user in s.hubs ==> s.hubs[user] in s.table
    ensures user in t.hubs && t.hubs[user] in t.table
    ensures t.listeners == s.listeners && t.tasks == s.tasks
  {
    var h := HubOf(s, user, newHub);
    var hub := Touched(if user in s.hubs then s.table[h] else Hub(map[], true, s.now), s.now);
    s.(hubs := s.hubs[user := h], table := s.table[h := hub], requests := s.requests[request := Request(h, s.now)])
  }

  /** `_listener_finished`: deregister and end the streams, unless the task has been
      replaced or dropped. */
  function CalledBack(s: State, task: TaskId): State
    requires task in s.tasks
  {
    var user := s.tasks[task].user;
    var t := s.(tasks := s.tasks[task := s.tasks[task].(status := Settled)]);
    if user !in s.listeners || s.listeners[user] != task then t
    else
      t.(listeners := s.listeners - {user},
         table := if user in s.hubs && s.hubs[user] in s.table
                  then s.table[s.hubs[user] := Lost(s.table[s.hubs[user]], s.now)]
                  else s.table)
  }

  predicate Idle(hub: Hub, cutoff: int) {
    hub.streams == map[] && hub.lastActivity <= cutoff
  }

  function Doomed(task: Task): Task {
    task.(doomed := true)
  }

  /** One user's turn of `stop_idle`, up to awaiting the cancellation. */
  function Swept(s: State, user: UserId, cutoff: int): State
    requires user in s.hubs ==> s.hubs[user] in s.table
  {
    if user !in s.hubs || !Idle(s.table[s.hubs[user]], cutoff) then s
    else
      s.(hubs := s.hubs - {user},
         listeners := s.listeners - {user},
         tasks := if user in s.listeners && s.listeners[user] in s.tasks
                  then s.tasks[s.listeners[user] := Doomed(s.tasks[s.listeners[user]])]
                  else s.tasks)
  }

  /** Some hubs' streams ended, while their feed lives or as it is lost. */
  function EndedIn(table: map<HubId, Hub>, which: set<HubId>, now: int): map<HubId, Hub> {
    map h | h in table :: if h in which then Ended(table[h], now) else table[h]
  }

  function LostIn(table: map<HubId, Hub>, which: set<HubId>, now: int): map<HubId, Hub> {
    map h | h in table :: if h in which then Lost(table[h], now) else table[h]
  }

  function FanoutLost(s: State): State {
    s.(table := EndedIn(s.table, s.hubs.Values, s.now))
  }

  /** `close` up to its first await: everything is forgotten, every stream ended, and the
      first listener cancelled. */
  function Closed(s: State, order: seq<TaskId>): State
    requires forall t | t in order :: t in s.tasks
  {
    Cancelling(s.(hubs := map[], listeners := map[],
                  table := LostIn(s.table, s.hubs.Values, s.now),
                  closing := order))
  }

  /** From one await of `close` to the next. */
  function Cancelling(s: State): State
    requires forall t | t in s.closing :: t in s.tasks
  {
    if s.closing == [] then s.(awaited := None)
    else
      var next := s.closing[0];
      s.(tasks := s.tasks[next := Doomed(s.tasks[next])], awaited := Some(next), closing := s.closing[1..])
  }

  /** The registered users' hubs and tasks exist. */
  predicate Known(s: State) {
    && (forall u | u in s.hubs :: s.hubs[u] in s.table)
    && (forall u | u in s.listeners :: s.listeners[u] in s.tasks)
    && (forall t | t in s.closing :: t in s.tasks)
  }

  function Next(s: State, step: Step): State
    requires Known(s) && Enabled(s, step)
  {
    match step
    case Tick(seconds) => s.(now := s.now + seconds)
    case Arm(user, newHub, newTask, request) => Armed(s, user, newHub, newTask, request)
    case Start(request) =>
      var h := s.requests[request].hub;
      s.(requests := s.requests - {request}, table := s.table[h := Started(s.table[h], request, s.now)])
    case Notify(hub, event) => s.(table := s.table[hub := Published(s.table[hub], event, s.now)])
    case Take(hub, stream) => s.(table := s.table[hub := Taken(s.table[hub], stream, s.now)])
    case Leave(hub, stream) => s.(table := s.table[hub := Left(s.table[hub], stream, s.now)])
    case Finish(task) => s.(tasks := s.tasks[task := s.tasks[task].(status := Stopped)])
    case CallBack(task) => CalledBack(s, task)
    case Sweep(user, cutoff) => Swept(s, user, cutoff)
    case LoseFanout => FanoutLost(s)
    case Close(order) => Closed(s, order)
    case CancelNext => Cancelling(s)
  }

  predicate OneUserEach(listeners: map<UserId, TaskId>) {
    forall u, v | u in listeners && v in listeners && listeners[u] == listeners[v] :: u == v
  }

  /** These users, and only these, forgotten, and their listeners handed over. */
  ghost predicate SweptOf(before: State, after: State, gone: set<UserId>) {
    && after == before.(hubs := before.hubs - gone, listeners := before.listeners - gone, tasks := after.tasks)
    && after.tasks.Keys == before.tasks.Keys
    && (forall u | u in before.listeners && before.listeners[u] in before.tasks ::
          after.tasks[before.listeners[u]] ==
            if u in gone then before.tasks[before.listeners[u]].(doomed := true) else before.tasks[before.listeners[u]])
    && (forall t | t in after.tasks && t !in before.listeners.Values :: after.tasks[t] == before.tasks[t])
  }

  lemma SweptHubs(before: State, after: State, gone: set<UserId>)
    requires SweptOf(before, after, gone)
    ensures after.hubs == before.hubs - gone
  {
  }

  lemma NoneSwept(s: State)
    ensures SweptOf(s, s, {})
  {
    assert s.hubs - {} == s.hubs && s.listeners - {} == s.listeners;
  }

  lemma OneMoreSwept(before: State, s: State, gone: set<UserId>, user: UserId, cutoff: int)
    requires Known(before) && OneUserEach(before.listeners) && SweptOf(before, s, gone)
    requires user in before.hubs && user !in gone
    requires before.table[before.hubs[user]].streams == map[] && before.table[before.hubs[user]].lastActivity <= cutoff
    ensures Known(s) && SweptOf(before, Swept(s, user, cutoff), gone + {user})
  {
    assert before.hubs - gone - {user} == before.hubs - (gone + {user});
    assert before.listeners - gone - {user} == before.listeners - (gone + {user});
  }

  // ------------------------------------------------------------------- invariants

  /** Something will feed this hub, or find out that it no longer can: it is registered,
      with a listener that is running or whose callback is due. */
  predicate Fed(s: State, hub: HubId) {
    exists u | u in s.hubs :: s.hubs[u] == hub && u in s.listeners
  }

  /** A registered listener runs, or has stopped and its callback is due; it was not given
      up; it feeds the user's registered hub, and that hub takes new streams. */
  predicate Registered(s: State)
    requires Known(s)
  {
    && (forall u, v | u in s.hubs && v in s.hubs && s.hubs[u] == s.hubs[v] :: u == v)
    && (forall u | u in s.listeners :: ListenerOk(s, u))
  }

  predicate ListenerOk(s: State, user: UserId)
    requires Known(s) && user in s.listeners
  {
    && user in s.hubs && s.table[s.hubs[user]].live
    && var task := s.tasks[s.listeners[user]];
       task.user == user && task.hub == s.hubs[user] && task.status != Settled && !task.doomed
  }

  /** Running, and nobody has cancelled it. */
  predicate Uncancelled(s: State, t: TaskId) {
    t in s.tasks && s.tasks[t].status == Running && !s.tasks[t].doomed
  }

  /** At most one listener of a user is neither being cancelled nor collected by a close:
      the registered one. */
  predicate OneListener(s: State) {
    forall t | t in s.tasks && Uncancelled(s, t) && t !in s.closing ::
      s.tasks[t].user in s.listeners && s.listeners[s.tasks[t].user] == t
  }

  /** What a close under way has collected is of different users, and none of it
      registered. */
  predicate Collected(s: State) {
    && (s.awaited.None? ==> s.closing == [])
    && Distinct(s.closing)
    && (forall t | t in s.closing :: t in s.tasks)
    && (forall u | u in s.listeners :: s.listeners[u] !in s.closing)
    && (forall t, u | t in s.closing && u in s.closing && s.tasks[t].user == s.tasks[u].user :: t == u)
  }

  /** The promise: no stream stays open that nothing will ever feed. */
  predicate NoOrphans(s: State) {
    forall h | h in s.table :: forall stream | stream in s.table[h].streams ::
      Ending(s.table[h].streams[stream]) || Fed(s, h)
  }

  predicate Timely(s: State, r: Request) {
    s.now - r.armedAt < IDLE
  }

  /** A request that starts in time either finds its hub fed or is turned away. */
  predicate Served(s: State, request: Request) {
    && request.hub in s.table && request.armedAt <= s.now
    && (Timely(s, request) && s.table[request.hub].live ==>
          Fed(s, request.hub) && request.armedAt <= s.table[request.hub].lastActivity)
  }

  predicate WillBeFed(s: State) {
    forall r | r in s.requests :: Served(s, s.requests[r])
  }

  predicate Clocked(s: State) {
    forall h | h in s.table :: s.table[h].lastActivity <= s.now && Bounded(s.table[h])
  }

  /** The dictionaries and the tasks. */
  predicate Books(s: State) {
    Known(s) && Registered(s) && OneListener(s) && Collected(s)
  }

  /** The streams and the requests. */
  predicate Promises(s: State) {
    NoOrphans(s) && WillBeFed(s) && Clocked(s)
  }

  predicate Safe(s: State) {
    Books(s) && Promises(s)
  }

  /** What is assumed of `/events`: it starts its stream within the idle time of arming. */
  predicate StartsInTime(s: State, step: Step) {
    step.Start? ==> step.request in s.requests && Timely(s, s.requests[step.request])
  }

  function Initial(now: int): State {
    State(map[], map[], map[], map[], map[], None, [], now)
  }

  // ------------------------------------------------------------------- the registry

  class Registry {
    var hubs: map<UserId, HubId>
    var listeners: map<UserId, TaskId>
    /** The hub objects and tasks the dictionaries refer to, and the requests under way. */
    var table: map<HubId, Hub>
    var tasks: map<TaskId, Task>
    var requests: map<StreamId, Request>
    var awaited: Option<TaskId>
    var closing: seq<TaskId>
    var now: int

    function Value(): State
      reads this
    {
      State(hubs, listeners, table, tasks, requests, awaited, closing, now)
    }

    constructor (start: int)
      ensures Value() == Initial(start)
    {
      hubs, listeners, table, tasks, requests, now := map[], map[], map[], map[], map[], start;
      awaited, closing := None, [];
    }

    method HubFor(user: UserId, newHub: HubId) returns (h: HubId)
      modifies `hubs, `table
      ensures h == HubOf(old(Value()), user, newHub)
      ensures hubs == old(hubs)[user := h]
      ensures table == if user in old(hubs) then old(table) else old(table)[h := Hub(map[], true, now)]
    {
      if user !in hubs {
        hubs := hubs[user := newHub];
        table := table[newHub := Hub(map[], true, now)];
      } else {
        assert hubs[user := hubs[user]] == hubs;
      }
      h := hubs[user];
    }

    /** `ensure_listener` and `hub_for` as `GET /events` calls them. */
    method EnsureListener(user: UserId, newHub: HubId, newTask: TaskId, request: StreamId)
      requires Known(Value()) && Enabled(Value(), Arm(user, newHub, newTask, request))
      modifies `hubs, `table, `tasks, `listeners, `requests
      ensures Value() == Next(old(Value()), Arm(user, newHub, newTask, request))
    {
      hide Enabled, Used;
      var h := HubFor(user, newHub);
      table := table[h := Touched(table[h], now)];
      requests := requests[request := Request(h, now)];
      assert Value() == Asked(old(Value()), user, newHub, request) && h == hubs[user];
      hide Asked, Touched, HubOf;
      if user in listeners && tasks[listeners[user]].status == Running {
        return;
      }
      table := table[h := Ready(table[h])];
      tasks := tasks[newTask := Task(user, h, Running, false)];
      listeners := listeners[user := newTask];
    }

    /** `_deliver_remote`: only into a hub that exists and has a stream open, so that a
        peer's note neither brings a hub back nor keeps an idle one from being swept. */
    method DeliverRemote(user: UserId, event: EventId)
      requires Known(Value())
      modifies `table
      ensures
        Value() == if user in hubs && old(table)[hubs[user]].streams != map[]
                   then Next(old(Value()), Notify(hubs[user], event)) else old(Value())
    {
      if user !in hubs || table[hubs[user]].streams == map[] {
        return;
      }
      table := table[hubs[user] := Published(table[hubs[user]], event, now)];
    }

    /** `_listener_finished`. */
    method ListenerFinished(task: TaskId)
      requires Known(Value()) && Enabled(Value(), CallBack(task))
      modifies `table, `tasks, `listeners
      ensures Value() == Next(old(Value()), CallBack(task))
    {
      var user := tasks[task].user;
      tasks := tasks[task := tasks[task].(status := Settled)];
      if user !in listeners || listeners[user] != task {
        return;
      }
      listeners := listeners - {user};
      if user !in hubs {
        return;
      }
      table := table[hubs[user] := Lost(table[hubs[user]], now)];
    }

    /** One user's turn of `stop_idle`: both halves of the condition are read again. */
    method SweepUser(user: UserId, cutoff: int)
      requires Known(Value())
      modifies `hubs, `listeners, `tasks
      ensures Value() == Swept(old(Value()), user, cutoff)
    {
      if user !in hubs || table[hubs[user]].streams != map[] || table[hubs[user]].lastActivity > cutoff {
        return;
      }
      hubs := hubs - {user};
      if user in listeners {
        tasks := tasks[listeners[user] := Doomed(tasks[listeners[user]])];
        listeners := listeners - {user};
      } else {
        assert listeners - {user} == listeners;
      }
    }

    /** `stop_idle` with nobody else at work: every user whose hub has no stream and has been
        idle so long is forgotten, listener and all, and nobody else is touched. */
    method StopIdle(seconds: nat)
      requires Known(Value()) && OneUserEach(listeners)
      modifies `hubs, `listeners, `tasks
      ensures
        var idle := set u | u in old(hubs) && table[old(hubs)[u]].streams == map[] && table[old(hubs)[u]].lastActivity <= now - seconds;
        SweptOf(old(Value()), Value(), idle)
      ensures forall u | u in hubs :: table[hubs[u]].streams != map[] || table[hubs[u]].lastActivity > now - seconds
    {
      hide SweptOf, Swept, Idle;
      var cutoff := now - seconds;
      ghost var before := Value();
      var todo := set u | u in hubs && table[hubs[u]].streams == map[] && table[hubs[u]].lastActivity <= cutoff;
      ghost var idle := todo;
      NoneSwept(before);
      assert idle - todo == {};
      while todo != {}
        invariant todo <= idle && SweptOf(before, Value(), idle - todo)
      {
        var user :| user in todo;
        OneMoreSwept(before, Value(), idle - todo, user, cutoff);
        SweepUser(user, cutoff);
        assert idle - (todo - {user}) == idle - todo + {user};
        todo := todo - {user};
      }
      assert idle - todo == idle;
      SweptHubs(before, Value(), idle);
    }

    method EndHubs(which: set<HubId>)
      requires forall h | h in which :: h in table
      modifies `table
      ensures table == EndedIn(old(table), which, now)
    {
      hide Ended;
      ghost var was := table;
      var todo := which;
      while todo != {}
        invariant todo <= which && table.Keys == was.Keys
        invariant forall h | h in was :: table[h] == if h in which && h !in todo then Ended(was[h], now) else was[h]
      {
        var h :| h in todo;
        table := table[h := Ended(table[h], now)];
        todo := todo - {h};
      }
    }

    method LoseHubs(which: set<HubId>)
      requires forall h | h in which :: h in table
      modifies `table
      ensures table == LostIn(old(table), which, now)
    {
      hide Lost;
      ghost var was := table;
      var todo := which;
      while todo != {}
        invariant todo <= which && table.Keys == was.Keys
        invariant forall h | h in was :: table[h] == if h in which && h !in todo then Lost(was[h], now) else was[h]
      {
        var h :| h in todo;
        table := table[h := Lost(table[h], now)];
        todo := todo - {h};
      }
    }

    /** `_fanout_lost`. */
    method OnFanoutLost()
      requires Known(Value())
      modifies `table
      ensures Value() == Next(old(Value()), LoseFanout)
    {
      EndHubs(hubs.Values);
    }

    /** `close` up to its first await: everything forgotten, then every stream ended, then
        the first task cancelled. */
    method Shut(order: seq<TaskId>)
      requires Known(Value()) && Enabled(Value(), Close(order))
      modifies `hubs, `listeners, `table, `tasks, `awaited, `closing
      ensures Value() == Next(old(Value()), Close(order))
    {
      hide LostIn, Cancelling;
      assert forall t | t in order :: t in tasks;
      hide Enabled, Enumerates;
      var open := hubs.Values;
      listeners, hubs := map[], map[];
      LoseHubs(open);
      closing := order;
      CancelOne();
    }

    /** The loop over the tasks, from one await to the next. */
    method CancelOne()
      requires forall t | t in closing :: t in tasks
      modifies `tasks, `awaited, `closing
      ensures Value() == Cancelling(old(Value()))
    {
      if closing == [] {
        awaited := None;
        return;
      }
      tasks := tasks[closing[0] := Doomed(tasks[closing[0]])];
      awaited := Some(closing[0]);
      closing := closing[1..];
    }

    method Resume()
      requires Known(Value()) && Enabled(Value(), CancelNext)
      modifies `tasks, `awaited, `closing
      ensures Value() == Next(old(Value()), CancelNext)
    {
      CancelOne();
    }
  }
}
