/** What every step of the registry keeps, and so what holds over every run. */
module HubSafety {
  import opened Wrappers
  import opened SseHub
  import opened HubRegistry

  // -------------------------------------------------------------------- the two halves

  /** The books do not depend on the streams. */
  lemma BooksSame(s: State, t: State)
    requires Books(s)
    requires t.hubs == s.hubs && t.listeners == s.listeners && t.tasks == s.tasks
    requires t.closing == s.closing && t.awaited == s.awaited
    requires forall h | h in s.table :: h in t.table && t.table[h].live == s.table[h].live
    ensures Books(t)
  {
  }

  lemma FedSame(s: State, t: State)
    requires t.hubs == s.hubs && t.listeners == s.listeners
    ensures forall g :: Fed(s, g) == Fed(t, g)
  {
  }

  lemma FedBy(t: State, user: UserId)
    requires user in t.hubs && user in t.listeners
    ensures Fed(t, t.hubs[user])
  {
  }

  /** What a step may do to a hub: not open it, not turn its clock back, start no stream
      and take no sentinel away; and if nothing feeds it any more, then end every stream
      and turn new ones away. */
  ghost predicate HubStep(s: State, t: State, h: HubId)
    requires h in s.table && h in t.table
  {
    && (t.table[h].live ==> s.table[h].live)
    && s.table[h].lastActivity <= t.table[h].lastActivity <= t.now && Bounded(t.table[h])
    && StillPromised(s.table[h], t.table[h])
    && (Fed(s, h) && !Fed(t, h) ==> !t.table[h].live && AllEnding(t.table[h]))
  }

  ghost predicate StillPromised(before: Hub, after: Hub) {
    forall stream | stream in after.streams ::
      stream in before.streams && (Ending(before.streams[stream]) ==> Ending(after.streams[stream]))
  }

  ghost predicate AllEnding(hub: Hub) {
    forall stream | stream in hub.streams :: Ending(hub.streams[stream])
  }

  /** A hub a step leaves alone. */
  lemma HubSame(s: State, t: State, h: HubId)
    requires Clocked(s) && h in s.table && h in t.table && t.table[h] == s.table[h] && s.now <= t.now
    requires Fed(s, h) ==> Fed(t, h)
    ensures HubStep(s, t, h)
  {
    hide Fed, Bounded, Ending;
  }

  lemma HubStepsKeep(s: State, t: State)
    requires Promises(s)
    requires t.table.Keys == s.table.Keys && t.now == s.now && t.requests == s.requests
    requires forall h | h in s.table :: HubStep(s, t, h)
    ensures Promises(t)
  {
    hide Fed, Bounded, Ending;
    assert forall h | h in t.table :: HubStep(s, t, h);
    forall h | h in t.table ensures forall stream | stream in t.table[h].streams :: Ending(t.table[h].streams[stream]) || Fed(t, h) {
      assert HubStep(s, t, h);
    }
    forall r | r in t.requests ensures Served(t, t.requests[r]) {
      assert Served(s, s.requests[r]) && HubStep(s, t, t.requests[r].hub);
    }
  }

  // ------------------------------------------------------------- steps on one hub

  /** A step that changes one hub alone. */
  lemma OneHub(s: State, h: HubId, hub: Hub)
    requires Safe(s) && h in s.table
    requires hub.live == s.table[h].live
    requires s.table[h].lastActivity <= hub.lastActivity <= s.now && Bounded(hub)
    requires StillPromised(s.table[h], hub)
    ensures Safe(s.(table := s.table[h := hub]))
  {
    hide Books, NoOrphans, WillBeFed, Ending, Bounded, Fed, StillPromised;
    var t := s.(table := s.table[h := hub]);
    BooksSame(s, t);
    FedSame(s, t);
    forall g | g in s.table ensures HubStep(s, t, g) {
      if g != h {
        HubSame(s, t, g);
      }
    }
    HubStepsKeep(s, t);
  }

  lemma HubOk(s: State, h: HubId)
    requires Safe(s) && h in s.table
    ensures Bounded(s.table[h]) && s.table[h].lastActivity <= s.now && Known(s)
  {
  }

  lemma NotifySafe(s: State, h: HubId, e: EventId)
    requires Safe(s) && h in s.table
    ensures Known(s) && Safe(Next(s, Notify(h, e)))
  {
    HubOk(s, h);
    hide Safe;
    PublishedKeeps(s.table[h], e, s.now);
    OneHub(s, h, Published(s.table[h], e, s.now));
  }

  lemma PublishedKeeps(hub: Hub, e: EventId, now: int)
    requires Bounded(hub)
    ensures Bounded(Published(hub, e, now)) && StillPromised(hub, Published(hub, e, now))
  {
    forall stream | stream in hub.streams && Ending(hub.streams[stream]) ensures Ending(Published(hub, e, now).streams[stream]) {
    }
  }

  lemma TakeSafe(s: State, h: HubId, stream: StreamId)
    requires Safe(s) && Enabled(s, Take(h, stream))
    ensures Known(s) && Safe(Next(s, Take(h, stream)))
  {
    HubOk(s, h);
    hide Safe;
    TakenKeeps(s.table[h], stream, s.now);
    OneHub(s, h, Taken(s.table[h], stream, s.now));
  }

  lemma TakenKeeps(hub: Hub, stream: StreamId, now: int)
    requires Bounded(hub) && stream in hub.streams && hub.streams[stream] != [] && hub.lastActivity <= now
    ensures
      var taken := Taken(hub, stream, now);
      && Bounded(taken) && StillPromised(hub, taken)
      && taken.live == hub.live && hub.lastActivity <= taken.lastActivity <= now
  {
    var queue := hub.streams[stream];
    assert queue == [queue[0]] + queue[1..];
  }

  lemma LeaveSafe(s: State, h: HubId, stream: StreamId)
    requires Safe(s) && Enabled(s, Leave(h, stream))
    ensures Known(s) && Safe(Next(s, Leave(h, stream)))
  {
    HubOk(s, h);
    hide Safe;
    OneHub(s, h, Left(s.table[h], stream, s.now));
  }

  // --------------------------------------------------------------- a stream starting

  /** The step the idle time is about: the hub is fed, or the stream is turned away. */
  lemma StartSafe(s: State, r: StreamId)
    requires Safe(s) && Enabled(s, Start(r)) && StartsInTime(s, Start(r))
    ensures Known(s) && Safe(Next(s, Start(r)))
  {
    hide Books, NoOrphans, WillBeFed, Bounded, Ending, Fed;
    HubOk(s, s.requests[r].hub);
    BooksSame(s, Next(s, Start(r)));
    StartStreams(s, r);
    StartRequests(s, r);
  }

  lemma StartStreams(s: State, r: StreamId)
    requires Known(s) && Promises(s) && Enabled(s, Start(r)) && StartsInTime(s, Start(r))
    ensures NoOrphans(Next(s, Start(r))) && Clocked(Next(s, Start(r)))
  {
    hide Ending, Fed;
    assert Served(s, s.requests[r]);
    FedSame(s, Next(s, Start(r)));
  }

  lemma StartRequests(s: State, r: StreamId)
    requires Known(s) && Promises(s) && Enabled(s, Start(r))
    ensures WillBeFed(Next(s, Start(r)))
  {
    hide NoOrphans, Fed, Bounded;
    var t := Next(s, Start(r));
    FedSame(s, t);
    forall q | q in t.requests ensures Served(t, t.requests[q]) {
      assert Served(s, s.requests[q]);
    }
  }

  // ------------------------------------------------------------ steps on no hub at all

  lemma TickSafe(s: State, seconds: nat)
    requires Safe(s)
    ensures Known(s) && Safe(Next(s, Tick(seconds)))
  {
    assert Known(s) by { BooksKnown(s); }
    var t := Next(s, Tick(seconds));
    hide Books, Fed, Ending, Bounded;
    BooksSame(s, t);
    FedSame(s, t);
    forall q | q in t.requests ensures Served(t, t.requests[q]) {
      assert Served(s, s.requests[q]);
    }
  }

  lemma BooksKnown(s: State)
    requires Books(s)
    ensures Known(s)
  {
  }

  /** Tasks alone do not touch the streams. */
  lemma PromisesSame(s: State, t: State)
    requires Promises(s)
    requires t.hubs == s.hubs && t.listeners == s.listeners
    requires t.table == s.table && t.requests == s.requests && t.now == s.now
    ensures Promises(t)
  {
    hide Ending, Bounded;
    FedSame(s, t);
    hide Fed;
    forall q | q in t.requests ensures Served(t, t.requests[q]) {
      assert Served(s, s.requests[q]);
    }
  }

  lemma FinishSafe(s: State, task: TaskId)
    requires Safe(s) && Enabled(s, Finish(task))
    ensures Known(s) && Safe(Next(s, Finish(task)))
  {
    BooksKnown(s);
    FinishBooks(s, task);
    hide Books, Promises;
    PromisesSame(s, Next(s, Finish(task)));
  }

  lemma FinishBooks(s: State, task: TaskId)
    requires Books(s) && Enabled(s, Finish(task))
    ensures Books(Next(s, Finish(task)))
  {
    var t := Next(s, Finish(task));
    forall u | u in t.listeners ensures ListenerOk(t, u) {
      assert ListenerOk(s, u);
    }
    forall k | k in t.tasks && Uncancelled(t, k) && k !in t.closing
      ensures t.tasks[k].user in t.listeners && t.listeners[t.tasks[k].user] == k
    {
      assert Uncancelled(s, k);
    }
  }

  // -------------------------------------------------------------- arming a listener

  /** With a listener running, arming only touches the hub. */
  lemma ArmAgainSafe(s: State, user: UserId, newHub: HubId, newTask: TaskId, r: StreamId)
    requires Safe(s) && Enabled(s, Arm(user, newHub, newTask, r))
    requires Known(s) && user in s.listeners && s.tasks[s.listeners[user]].status == Running
    ensures Safe(Armed(s, user, newHub, newTask, r))
  {
    assert user in s.hubs by {
      hide Promises;
    }
    hide Books, Promises;
    var h := s.hubs[user];
    HubOk(s, h);
    var t := s.(table := s.table[h := Touched(s.table[h], s.now)]);
    TouchedKeeps(s.table[h], s.now);
    OneHub(s, h, Touched(s.table[h], s.now));
    FedBy(t, user);
    RequestSafe(t, r, h);
    assert s.hubs[user := h] == s.hubs;
  }

  lemma TouchedKeeps(hub: Hub, now: int)
    requires Bounded(hub)
    ensures Bounded(Touched(hub, now)) && StillPromised(hub, Touched(hub, now))
  {
  }

  /** A request made of a hub that is fed. */
  lemma RequestSafe(s: State, r: StreamId, h: HubId)
    requires Safe(s) && h in s.table && Fed(s, h) && s.table[h].lastActivity == s.now
    ensures Safe(s.(requests := s.requests[r := Request(h, s.now)]))
  {
    hide Books, Bounded, Ending;
    var t := s.(requests := s.requests[r := Request(h, s.now)]);
    BooksSame(s, t);
    FedSame(s, t);
    hide Fed;
    forall q | q in t.requests ensures Served(t, t.requests[q]) {
      assert q != r ==> Served(s, s.requests[q]);
    }
  }

  /** Without one, the hub is opened and a new listener registered. */
  lemma ArmAnewSafe(s: State, user: UserId, newHub: HubId, newTask: TaskId, r: StreamId)
    requires Safe(s) && Enabled(s, Arm(user, newHub, newTask, r))
    requires Known(s) && !(user in s.listeners && s.tasks[s.listeners[user]].status == Running)
    ensures Safe(Armed(s, user, newHub, newTask, r))
  {
    hide Registered, OneListener, Collected, NoOrphans, WillBeFed, Clocked, Enabled, Armed;
    ArmRegistered(s, user, newHub, newTask, r);
    ArmOneListener(s, user, newHub, newTask, r);
    ArmCollected(s, user, newHub, newTask, r);
    ArmNoOrphans(s, user, newHub, newTask, r);
    ArmWillBeFed(s, user, newHub, newTask, r);
  }

  /** The hub arming finds or makes is open, touched, and has the streams it had; no other
      hub changes. */
  lemma ArmedHubs(s: State, user: UserId, newHub: HubId, newTask: TaskId, r: StreamId)
    requires Known(s) && Enabled(s, Arm(user, newHub, newTask, r))
    requires !(user in s.listeners && s.tasks[s.listeners[user]].status == Running)
    ensures
      var t, h := Armed(s, user, newHub, newTask, r), HubOf(s, user, newHub);
      && t.now == s.now && h in t.table && t.table[h].lastActivity == s.now && t.table[h].live
      && t.table[h].streams == (if user in s.hubs then s.table[h].streams else map[])
      && (user in s.hubs ==> h in s.table)
      && (forall g | g in t.table && g != h :: g in s.table && t.table[g] == s.table[g])
      && (forall g | g in s.table :: g in t.table)
      && t.hubs == s.hubs[user := h] && t.listeners == s.listeners[user := newTask]
      && t.tasks == s.tasks[newTask := Task(user, h, Running, false)]
      && t.closing == s.closing && t.awaited == s.awaited
      && t.requests == s.requests[r := Request(h, s.now)]
  {
  }

  lemma ArmKeepsFed(s: State, user: UserId, newHub: HubId, newTask: TaskId, r: StreamId)
    requires Known(s) && Enabled(s, Arm(user, newHub, newTask, r))
    requires !(user in s.listeners && s.tasks[s.listeners[user]].status == Running)
    ensures forall g | Fed(s, g) :: Fed(Armed(s, user, newHub, newTask, r), g)
    ensures Fed(Armed(s, user, newHub, newTask, r), HubOf(s, user, newHub))
  {
    ArmedHubs(s, user, newHub, newTask, r);
    hide Armed, Enabled;
    var t := Armed(s, user, newHub, newTask, r);
    FedBy(t, user);
    forall g | Fed(s, g) ensures Fed(t, g) {
      var u :| u in s.hubs && s.hubs[u] == g && u in s.listeners;
      assert u in t.hubs && t.hubs[u] == g && u in t.listeners;
    }
  }

  lemma ArmNoOrphans(s: State, user: UserId, newHub: HubId, newTask: TaskId, r: StreamId)
    requires Known(s) && Promises(s) && Enabled(s, Arm(user, newHub, newTask, r))
    requires !(user in s.listeners && s.tasks[s.listeners[user]].status == Running)
    ensures NoOrphans(Armed(s, user, newHub, newTask, r)) && Clocked(Armed(s, user, newHub, newTask, r))
  {
    ArmKeepsFed(s, user, newHub, newTask, r);
    ArmedHubs(s, user, newHub, newTask, r);
    hide WillBeFed, Fed, Ending, Armed, Enabled;
  }

  lemma ArmWillBeFed(s: State, user: UserId, newHub: HubId, newTask: TaskId, r: StreamId)
    requires Known(s) && Promises(s) && Enabled(s, Arm(user, newHub, newTask, r))
    requires !(user in s.listeners && s.tasks[s.listeners[user]].status == Running)
    ensures WillBeFed(Armed(s, user, newHub, newTask, r))
  {
    ArmKeepsFed(s, user, newHub, newTask, r);
    ArmedHubs(s, user, newHub, newTask, r);
    hide NoOrphans, Bounded, Armed, Enabled, Fed;
    var t := Armed(s, user, newHub, newTask, r);
    forall q | q in t.requests ensures Served(t, t.requests[q]) {
      if q != r {
        assert Served(s, s.requests[q]);
      }
    }
  }

  lemma ArmRegistered(s: State, user: UserId, newHub: HubId, newTask: TaskId, r: StreamId)
    requires Books(s) && Enabled(s, Arm(user, newHub, newTask, r))
    requires !(user in s.listeners && s.tasks[s.listeners[user]].status == Running)
    ensures Known(Armed(s, user, newHub, newTask, r)) && Registered(Armed(s, user, newHub, newTask, r))
  {
    hide Armed, Enabled, ListenerOk, OneListener, Collected;
    ArmKnown(s, user, newHub, newTask, r);
    ArmListeners(s, user, newHub, newTask, r);
    ArmDistinctHubs(s, user, newHub, newTask, r);
  }

  lemma ArmKnown(s: State, user: UserId, newHub: HubId, newTask: TaskId, r: StreamId)
    requires Books(s) && Enabled(s, Arm(user, newHub, newTask, r))
    requires !(user in s.listeners && s.tasks[s.listeners[user]].status == Running)
    ensures Known(Armed(s, user, newHub, newTask, r))
  {
    ArmedHubs(s, user, newHub, newTask, r);
    hide OneListener, Armed, Enabled, Registered;
  }

  lemma ArmListeners(s: State, user: UserId, newHub: HubId, newTask: TaskId, r: StreamId)
    requires Books(s) && Enabled(s, Arm(user, newHub, newTask, r))
    requires !(user in s.listeners && s.tasks[s.listeners[user]].status == Running)
    requires Known(Armed(s, user, newHub, newTask, r))
    ensures var t := Armed(s, user, newHub, newTask, r); forall u | u in t.listeners :: ListenerOk(t, u)
  {
    ArmedHubs(s, user, newHub, newTask, r);
    hide OneListener, Collected, Armed, Used;
    var t := Armed(s, user, newHub, newTask, r);
    assert ListenerOk(t, user);
    forall u | u in t.listeners && u != user ensures ListenerOk(t, u) {
      var h := s.hubs[u];
      ArmOthersOk(s, t, user, u);
    }
  }

  lemma ArmDistinctHubs(s: State, user: UserId, newHub: HubId, newTask: TaskId, r: StreamId)
    requires Books(s) && Enabled(s, Arm(user, newHub, newTask, r))
    requires !(user in s.listeners && s.tasks[s.listeners[user]].status == Running)
    ensures var hubs := Armed(s, user, newHub, newTask, r).hubs;
            forall u, v | u in hubs && v in hubs && hubs[u] == hubs[v] :: u == v
  {
    ArmedHubs(s, user, newHub, newTask, r);
    assert newHub !in s.table;
    hide ListenerOk, Armed, Enabled, OneListener, Collected;
  }

  /** Another user's listener and hub are left alone. */
  lemma ArmOthersOk(s: State, t: State, user: UserId, u: UserId)
    requires Known(s) && Known(t) && Registered(s) && u in s.listeners && u != user
    requires u in t.hubs && u in t.listeners && t.hubs[u] == s.hubs[u] && t.listeners[u] == s.listeners[u]
    requires t.table[t.hubs[u]] == s.table[t.hubs[u]] && t.tasks[t.listeners[u]] == s.tasks[t.listeners[u]]
    ensures ListenerOk(t, u)
  {
    assert ListenerOk(s, u);
  }

  lemma ArmOneListener(s: State, user: UserId, newHub: HubId, newTask: TaskId, r: StreamId)
    requires Books(s) && Enabled(s, Arm(user, newHub, newTask, r))
    requires !(user in s.listeners && s.tasks[s.listeners[user]].status == Running)
    ensures OneListener(Armed(s, user, newHub, newTask, r))
  {
    ArmedHubs(s, user, newHub, newTask, r);
    hide Armed, Collected, Used;
    var t := Armed(s, user, newHub, newTask, r);
    forall k | k in t.tasks && Uncancelled(t, k) && k !in t.closing
      ensures t.tasks[k].user in t.listeners && t.listeners[t.tasks[k].user] == k
    {
      if k != newTask {
        assert Uncancelled(s, k);
      }
    }
  }

  lemma ArmCollected(s: State, user: UserId, newHub: HubId, newTask: TaskId, r: StreamId)
    requires Books(s) && Enabled(s, Arm(user, newHub, newTask, r))
    requires !(user in s.listeners && s.tasks[s.listeners[user]].status == Running)
    ensures Collected(Armed(s, user, newHub, newTask, r))
  {
    ArmedHubs(s, user, newHub, newTask, r);
    hide Armed, Registered, OneListener, Used;
  }

  // ------------------------------------------------------------ a listener is finished

  lemma CallBackSafe(s: State, task: TaskId)
    requires Safe(s) && Enabled(s, CallBack(task))
    ensures Known(s) && Safe(CalledBack(s, task))
  {
    BooksKnown(s);
    CallBackBooks(s, task);
    hide Books, CalledBack;
    var t := CalledBack(s, task);
    forall h | h in s.table ensures h in t.table && HubStep(s, t, h) {
      CallBackHub(s, task, h);
    }
    CalledBackFrame(s, task);
    HubStepsKeep(s, t);
  }

  lemma CalledBackFrame(s: State, task: TaskId)
    requires task in s.tasks
    ensures CalledBack(s, task).table.Keys == s.table.Keys && CalledBack(s, task).now == s.now && CalledBack(s, task).requests == s.requests
  {
  }

  lemma CallBackHub(s: State, task: TaskId, h: HubId)
    requires Books(s) && Clocked(s) && Enabled(s, CallBack(task)) && h in s.table
    ensures h in CalledBack(s, task).table && HubStep(s, CalledBack(s, task), h)
  {
    hide Ending, Bounded, OneListener, Collected, StillPromised, AllEnding;
    var user := s.tasks[task].user;
    var t := CalledBack(s, task);
    EndedEnds(s.table[h], s.now);
    if user !in s.listeners || s.listeners[user] != task {
      FedSame(s, t);
      HubSame(s, t, h);
    } else if h != s.hubs[user] {
      if Fed(s, h) {
        var u :| u in s.hubs && s.hubs[u] == h && u in s.listeners;
        assert u != user && u in t.listeners;
      }
      HubSame(s, t, h);
    }
  }

  lemma CallBackBooks(s: State, task: TaskId)
    requires Books(s) && Enabled(s, CallBack(task))
    ensures Books(CalledBack(s, task))
  {
    CallBackRegistered(s, task);
    hide Registered, Lost;
    var t := CalledBack(s, task);
    forall k | k in t.tasks && Uncancelled(t, k) && k !in t.closing
      ensures t.tasks[k].user in t.listeners && t.listeners[t.tasks[k].user] == k
    {
      assert Uncancelled(s, k);
    }
  }

  lemma CallBackRegistered(s: State, task: TaskId)
    requires Known(s) && Registered(s) && Enabled(s, CallBack(task))
    ensures Known(CalledBack(s, task)) && Registered(CalledBack(s, task))
  {
    hide Ended;
    var t := CalledBack(s, task);
    forall u | u in t.listeners ensures ListenerOk(t, u) {
      assert ListenerOk(s, u);
    }
  }

  /** Every stream of a hub that was ended has its sentinel. */
  lemma EndedEnds(hub: Hub, now: int)
    requires Bounded(hub)
    ensures Bounded(Ended(hub, now)) && Bounded(Lost(hub, now))
    ensures AllEnding(Ended(hub, now)) && AllEnding(Lost(hub, now))
    ensures StillPromised(hub, Ended(hub, now)) && StillPromised(hub, Lost(hub, now)) && StillPromised(hub, hub)
  {
    forall stream | stream in hub.streams ensures Ending(WithEnd(hub.streams[stream])) {
      var queue := WithEnd(hub.streams[stream]);
      assert queue[|queue| - 1] == End;
    }
  }

  // ------------------------------------------------------------------- the idle sweep

  lemma SweepSafe(s: State, user: UserId, cutoff: int)
    requires Safe(s) && Enabled(s, Sweep(user, cutoff))
    ensures Known(s) && Safe(Swept(s, user, cutoff))
  {
    BooksKnown(s);
    if user in s.hubs && Idle(s.table[s.hubs[user]], cutoff) {
      SweepBooks(s, user, cutoff);
      SweepPromises(s, user, cutoff);
    }
  }

  lemma SweepBooks(s: State, user: UserId, cutoff: int)
    requires Books(s) && Enabled(s, Sweep(user, cutoff))
    ensures Books(Swept(s, user, cutoff))
  {
    var t := Swept(s, user, cutoff);
    forall k | k in t.tasks && Uncancelled(t, k) && k !in t.closing
      ensures t.tasks[k].user in t.listeners && t.listeners[t.tasks[k].user] == k
    {
      assert Uncancelled(s, k);
    }
  }

  /** The swept hub has no stream, and no request that could still start one in time. */
  lemma SweepPromises(s: State, user: UserId, cutoff: int)
    requires Known(s) && Promises(s) && Enabled(s, Sweep(user, cutoff))
    requires user in s.hubs && Idle(s.table[s.hubs[user]], cutoff)
    requires forall u | u in s.hubs && s.hubs[u] == s.hubs[user] :: u == user
    ensures Promises(Swept(s, user, cutoff))
  {
    var t, h := Swept(s, user, cutoff), s.hubs[user];
    forall g | Fed(s, g) && g != h ensures Fed(t, g) {
      var u :| u in s.hubs && s.hubs[u] == g && u in s.listeners;
      assert u != user && u in t.listeners && u in t.hubs;
    }
    hide Fed, Ending, Bounded;
    assert s.table[h].streams == map[];
    forall q | q in t.requests ensures Served(t, t.requests[q]) {
      assert Served(s, s.requests[q]);
    }
  }

  /** What a turn of the sweep is for, in whatever state: a user keeps the hub exactly when
      it has a stream or was active since the cutoff. One who loses it loses the listener
      too, and that is cancelled. Nobody and nothing else changes. */
  lemma SweepExactly(s: State, user: UserId, cutoff: int)
    requires Known(s) && Enabled(s, Sweep(user, cutoff))
    ensures
      var t := Next(s, Sweep(user, cutoff));
      && (user in s.hubs ==>
            (user in t.hubs <==> s.table[s.hubs[user]].streams != map[] || s.table[s.hubs[user]].lastActivity > cutoff))
      && (user in s.hubs && user !in t.hubs ==>
            user !in t.listeners && (user in s.listeners ==> t.tasks[s.listeners[user]] == s.tasks[s.listeners[user]].(doomed := true)))
      && (user !in s.hubs || user in t.hubs ==> t == s)
      && (forall v | v != user :: (v in t.hubs <==> v in s.hubs) && (v in t.listeners <==> v in s.listeners))
      && (forall v | v in t.hubs :: v in s.hubs && t.hubs[v] == s.hubs[v])
      && (forall v | v in t.listeners :: v in s.listeners && t.listeners[v] == s.listeners[v])
      && (forall k | k in s.tasks && !(user in s.listeners && k == s.listeners[user]) :: k in t.tasks && t.tasks[k] == s.tasks[k])
      && t == s.(hubs := t.hubs, listeners := t.listeners, tasks := t.tasks)
  {
  }

  // ---------------------------------------------------- losing the fan-out, closing

  lemma FanoutSafe(s: State)
    requires Safe(s)
    ensures Known(s) && Safe(FanoutLost(s))
  {
    BooksKnown(s);
    hide Books, Ending, Bounded, StillPromised, AllEnding, Ended, NoOrphans, WillBeFed, Fed;
    var t := FanoutLost(s);
    FedSame(s, t);
    forall h | h in s.table ensures HubStep(s, t, h) && t.table[h].live == s.table[h].live {
      EndedEnds(s.table[h], s.now);
      EndedKeeps(s.table[h], s.now);
      if t.table[h] == s.table[h] {
        HubSame(s, t, h);
      }
    }
    HubStepsKeep(s, t);
    BooksSame(s, t);
  }

  lemma EndedKeeps(hub: Hub, now: int)
    ensures Ended(hub, now).live == hub.live && Ended(hub, now).lastActivity == now
    ensures !Lost(hub, now).live && Lost(hub, now).lastActivity == now
  {
  }

  lemma CloseSafe(s: State, order: seq<TaskId>)
    requires Safe(s) && Enabled(s, Close(order))
    ensures Known(s) && Safe(Next(s, Close(order)))
  {
    BooksKnown(s);
    CloseBooks(s, order);
    ClosedHubs(s, order);
    hide Books, Ending, Bounded, StillPromised, AllEnding, Lost, NoOrphans, WillBeFed, Closed;
    var t := Closed(s, order);
    forall h | h in s.table ensures HubStep(s, t, h) {
      EndedEnds(s.table[h], s.now);
      EndedKeeps(s.table[h], s.now);
    }
    HubStepsKeep(s, t);
  }

  lemma ClosedHubs(s: State, order: seq<TaskId>)
    requires forall t | t in order :: t in s.tasks
    ensures
      var t := Closed(s, order);
      && t.table == LostIn(s.table, s.hubs.Values, s.now)
      && t.now == s.now && t.requests == s.requests && t.hubs == map[] && t.listeners == map[]
      && forall h | h in s.table && h !in s.hubs.Values :: !Fed(s, h)
  {
    hide Lost;
  }

  lemma CloseBooks(s: State, order: seq<TaskId>)
    requires Books(s) && Enabled(s, Close(order))
    ensures forall t | t in order :: t in s.tasks
    ensures Books(Closed(s, order))
  {
    OrderedUsers(s, order);
    CloseCollects(s, order);
    hide Lost, Collected;
    BooksCollected(s);
    var t := Closed(s, order);
    forall k | k in t.tasks && Uncancelled(t, k) ensures k in t.closing {
      assert Uncancelled(s, k);
      assert s.listeners[s.tasks[k].user] == k && k in order;
    }
    CollectedKnown(t);
    hide Closed, Uncancelled;
  }

  lemma CollectedKnown(s: State)
    requires Collected(s)
    ensures forall k | k in s.closing :: k in s.tasks
  {
  }

  lemma BooksCollected(s: State)
    requires Books(s)
    ensures s.awaited.None? ==> s.closing == []
  {
  }

  /** The registered listeners are of different users. */
  lemma OrderedUsers(s: State, order: seq<TaskId>)
    requires Known(s) && Registered(s) && Enumerates(order, s.listeners)
    ensures forall t | t in order :: t in s.tasks
    ensures forall t, u | t in order && u in order && s.tasks[t].user == s.tasks[u].user :: t == u
  {
    hide Distinct;
    forall t | t in order ensures t in s.tasks && s.tasks[t].user in s.listeners && s.listeners[s.tasks[t].user] == t {
      var u :| u in s.listeners && s.listeners[u] == t;
      assert ListenerOk(s, u);
    }
  }

  lemma CloseCollects(s: State, order: seq<TaskId>)
    requires Distinct(order) && forall t | t in order :: t in s.tasks
    requires forall t, u | t in order && u in order && s.tasks[t].user == s.tasks[u].user :: t == u
    ensures Collected(Closed(s, order))
  {
    hide Lost;
    var t := Closed(s, order);
    if order != [] {
      RestDistinct(order);
      assert forall k | k in t.closing :: k in order;
    }
  }

  lemma CancelSafe(s: State)
    requires Safe(s) && Enabled(s, CancelNext)
    ensures Known(s) && Safe(Next(s, CancelNext))
  {
    BooksKnown(s);
    CancelBooks(s);
    hide Books, Promises;
    PromisesSame(s, Cancelling(s));
  }

  lemma CancelBooks(s: State)
    requires Books(s)
    ensures Books(Cancelling(s))
  {
    CancelCollected(s);
    CancelRegistered(s);
    CancelOneListener(s);
    hide Collected, Registered, OneListener, Cancelling;
  }

  lemma CancelRegistered(s: State)
    requires Books(s)
    ensures Known(Cancelling(s)) && Registered(Cancelling(s))
  {
    CancelCollected(s);
    hide Collected, OneListener;
    var t := Cancelling(s);
    forall u | u in t.listeners ensures ListenerOk(t, u) {
      assert ListenerOk(s, u);
    }
  }

  lemma CancelOneListener(s: State)
    requires Books(s)
    ensures OneListener(Cancelling(s))
  {
    CancelCollected(s);
    hide Collected, Registered;
    var t := Cancelling(s);
    forall k | k in t.tasks && Uncancelled(t, k) && k !in t.closing
      ensures t.tasks[k].user in t.listeners && t.listeners[t.tasks[k].user] == k
    {
      assert Uncancelled(s, k) && k !in s.closing;
    }
  }

  lemma CancelCollected(s: State)
    requires Books(s)
    ensures Collected(Cancelling(s))
    ensures forall u | u in s.listeners && s.closing != [] :: s.listeners[u] != s.closing[0]
    ensures forall k | k in s.closing :: k == s.closing[0] || k in Cancelling(s).closing
  {
    hide OneListener, Registered;
    if s.closing != [] {
      RestDistinct(s.closing);
      assert s.closing[0] in s.closing;
      assert forall k | k in s.closing[1..] :: k in s.closing;
    }
  }

  // ---------------------------------------------------------------------- every run

  lemma StepSafe(s: State, step: Step)
    requires Safe(s) && Enabled(s, step) && StartsInTime(s, step)
    ensures Safe(Next(s, step))
  {
    hide Safe, Armed, CalledBack, Swept, FanoutLost, Closed, Cancelling;
    SafeIsKnown(s);
    match step
    case Tick(seconds) => TickSafe(s, seconds);
    case Arm(user, newHub, newTask, r) =>
      if user in s.listeners && s.tasks[s.listeners[user]].status == Running {
        ArmAgainSafe(s, user, newHub, newTask, r);
      } else {
        ArmAnewSafe(s, user, newHub, newTask, r);
      }
    case Start(r) => StartSafe(s, r);
    case Notify(h, e) => NotifySafe(s, h, e);
    case Take(h, stream) => TakeSafe(s, h, stream);
    case Leave(h, stream) => LeaveSafe(s, h, stream);
    case Finish(task) => FinishSafe(s, task);
    case CallBack(task) => CallBackSafe(s, task);
    case Sweep(user, cutoff) => SweepSafe(s, user, cutoff);
    case LoseFanout => FanoutSafe(s);
    case Close(order) => CloseSafe(s, order);
    case CancelNext => CancelSafe(s);
  }

  lemma SafeIsKnown(s: State)
    requires Safe(s)
    ensures Known(s)
  {
  }

  predicate LeadsTo(s: State, step: Step, t: State) {
    Known(s) && Enabled(s, step) && t == Next(s, step)
  }

  /** Nothing holds these up: whatever else goes on, time passes, a stream takes what is
      queued and a browser leaves, a listener that runs can stop and one that stopped is
      called back for, the fan-out can be lost, and a close not under way can be called. */
  lemma AlwaysPossible(s: State, h: HubId, r: StreamId, task: TaskId, e: EventId, order: seq<TaskId>, seconds: nat)
    requires Known(s)
    ensures Enabled(s, Tick(seconds)) && Enabled(s, LoseFanout)
    ensures h in s.table ==> Enabled(s, Notify(h, e))
    ensures h in s.table && r in s.table[h].streams ==>
              Enabled(s, Leave(h, r)) && (Enabled(s, Take(h, r)) <==> s.table[h].streams[r] != [])
    ensures task in s.tasks ==>
              && (Enabled(s, Finish(task)) <==> s.tasks[task].status == Running)
              && (Enabled(s, CallBack(task)) <==> s.tasks[task].status == Stopped)
    ensures Enabled(s, Close(order)) <==>
              && s.awaited == None && Distinct(order)
              && forall t :: t in order <==> exists u :: u in s.listeners && s.listeners[u] == t
    ensures Enabled(s, CancelNext) <==>
              s.awaited.Some? && s.awaited.value in s.tasks && s.tasks[s.awaited.value].status != Running
  {
  }

  /** A request can always be made, with a hub, a task and a number of its own, and then
      answered. */
  lemma RequestsAlwaysPossible(s: State, user: UserId, newHub: HubId, newTask: TaskId, r: StreamId, cutoff: int)
    requires Known(s)
    ensures Enabled(s, Arm(user, newHub, newTask, r)) <==>
              && newHub !in s.table && newTask !in s.tasks && r !in s.requests
              && forall h | h in s.table :: r !in s.table[h].streams
    ensures Enabled(s, Start(r)) <==> r in s.requests && s.requests[r].hub in s.table
    ensures Enabled(s, Sweep(user, cutoff)) <==> cutoff <= s.now - 1800
  {
  }

  /** A run: each step enabled where it is taken, each stream started in time. */
  predicate IsRun(start: State, steps: seq<Step>, states: seq<State>) {
    && |states| == |steps| + 1 && states[0] == start
    && forall i | 0 <= i < |steps| :: TakenAt(steps, states, i)
  }

  predicate TakenAt(steps: seq<Step>, states: seq<State>, i: nat)
    requires i < |steps| && |states| == |steps| + 1
  {
    LeadsTo(states[i], steps[i], states[i + 1]) && StartsInTime(states[i], steps[i])
  }

  /** The promise, over every interleaving of every number of users, requests, listeners
      and sweeps, before, during and after a close: no state of a run has a stream open that
      nothing will ever feed, or two listeners of one user neither of which is being
      cancelled or has been collected by a close. */
  lemma {:induction false} EveryRunIsSafe(now: int, steps: seq<Step>, states: seq<State>, n: nat)
    requires IsRun(Initial(now), steps, states) && n < |states|
    ensures Safe(states[n])
  {
    if n == 0 {
      NothingIsSafe(now);
    } else {
      hide Safe, Next, Enabled, Known, StartsInTime;
      EveryRunIsSafe(now, steps, states, n - 1);
      assert TakenAt(steps, states, n - 1);
      StepSafe(states[n - 1], steps[n - 1]);
    }
  }

  lemma NothingIsSafe(now: int)
    ensures Safe(Initial(now))
  {
  }

  // ------------------------------------------------------------- a close under way

  /** Two listeners of one user, running and neither of them cancelled. */
  ghost predicate TwoAtOnce(s: State, user: UserId) {
    exists t, u | t in s.tasks && u in s.tasks ::
      t != u && Uncancelled(s, t) && Uncancelled(s, u) && s.tasks[t].user == user && s.tasks[u].user == user
  }

  /** A user has two listeners at once, neither cancelled, exactly while a close waits with
      that user's old one still to cancel and the user has armed another: with no close
      under way, never. */
  lemma TwoAtOnceExactly(s: State, user: UserId)
    requires Safe(s)
    ensures TwoAtOnce(s, user) <==>
              && user in s.listeners && s.tasks[s.listeners[user]].status == Running
              && exists t | t in s.closing :: Uncancelled(s, t) && s.tasks[t].user == user
  {
    hide NoOrphans, WillBeFed, Clocked;
    if TwoAtOnce(s, user) {
      var t, u :| t in s.tasks && u in s.tasks && t != u && Uncancelled(s, t) && Uncancelled(s, u)
                  && s.tasks[t].user == user && s.tasks[u].user == user;
      assert t in s.closing || s.listeners[user] == t;
      assert u in s.closing || s.listeners[user] == u;
    }
    if user in s.listeners && s.tasks[s.listeners[user]].status == Running && exists t | t in s.closing :: Uncancelled(s, t) && s.tasks[t].user == user {
      var t :| t in s.closing && Uncancelled(s, t) && s.tasks[t].user == user;
      assert s.listeners[user] in s.listeners.Values && t != s.listeners[user];
      assert Uncancelled(s, s.listeners[user]);
    }
  }

  /** And it does come about: two users connected, a close that awaits the first one's
      listener, and the second dialling again meanwhile. */
  lemma ArmedDuringClose(now: int) returns (steps: seq<Step>, states: seq<State>)
    ensures steps == [Arm(0, 0, 0, 0), Arm(1, 1, 1, 1), Close([0, 1]), Arm(1, 2, 2, 2)]
    ensures IsRun(Initial(now), steps, states)
    ensures TwoAtOnce(states[4], 1)
  {
    hide LeadsTo, TwoAtOnce, Initial, OneUser, TwoUsers, ClosingTwo, ArmedAgain;
    steps := [Arm(0, 0, 0, 0), Arm(1, 1, 1, 1), Close([0, 1]), Arm(1, 2, 2, 2)];
    states := [Initial(now), OneUser(now), TwoUsers(now), ClosingTwo(now), ArmedAgain(now)];
    FirstUserArms(now);
    SecondUserArms(now);
    BothClose(now);
    SecondArmsAgain(now);
  }

  function FreshHub(now: int): Hub {
    Hub(map[], true, now)
  }

  function DeadHub(now: int): Hub {
    Hub(map[], false, now)
  }

  function OneUser(now: int): State {
    State(map[0 := 0], map[0 := 0], map[0 := FreshHub(now)], map[0 := Task(0, 0, Running, false)],
          map[0 := Request(0, now)], None, [], now)
  }

  function TwoUsers(now: int): State {
    State(map[0 := 0, 1 := 1], map[0 := 0, 1 := 1], map[0 := FreshHub(now), 1 := FreshHub(now)],
          map[0 := Task(0, 0, Running, false), 1 := Task(1, 1, Running, false)],
          map[0 := Request(0, now), 1 := Request(1, now)], None, [], now)
  }

  function ClosingTwo(now: int): State {
    State(map[], map[], map[0 := DeadHub(now), 1 := DeadHub(now)],
          map[0 := Task(0, 0, Running, true), 1 := Task(1, 1, Running, false)],
          map[0 := Request(0, now), 1 := Request(1, now)], Some(0), [1], now)
  }

  function ArmedAgain(now: int): State {
    State(map[1 := 2], map[1 := 2], map[0 := DeadHub(now), 1 := DeadHub(now), 2 := FreshHub(now)],
          map[0 := Task(0, 0, Running, true), 1 := Task(1, 1, Running, false), 2 := Task(1, 2, Running, false)],
          map[0 := Request(0, now), 1 := Request(1, now), 2 := Request(2, now)], Some(0), [1], now)
  }

  lemma FirstUserArms(now: int)
    ensures LeadsTo(Initial(now), Arm(0, 0, 0, 0), OneUser(now))
  {
  }

  lemma SecondUserArms(now: int)
    ensures LeadsTo(OneUser(now), Arm(1, 1, 1, 1), TwoUsers(now))
  {
    assert Next(OneUser(now), Arm(1, 1, 1, 1)).hubs == TwoUsers(now).hubs;
  }

  lemma BothClose(now: int)
    ensures LeadsTo(TwoUsers(now), Close([0, 1]), ClosingTwo(now))
  {
    assert Known(TwoUsers(now));
    CloseEnabled(now);
    ClosedTwo(now);
    hide Enabled, Closed, TwoUsers, ClosingTwo, Known;
  }

  lemma CloseEnabled(now: int)
    ensures Enabled(TwoUsers(now), Close([0, 1]))
  {
    var s := TwoUsers(now);
    assert s.listeners[0] == 0 && s.listeners[1] == 1;
  }

  lemma ClosedTwo(now: int)
    ensures Closed(TwoUsers(now), [0, 1]) == ClosingTwo(now)
  {
    CloseHubs(now);
    hide Lost;
    assert [0, 1][1..] == [1];
    assert Closed(TwoUsers(now), [0, 1]).tasks == ClosingTwo(now).tasks;
  }

  lemma CloseHubs(now: int)
    ensures var s := TwoUsers(now);
            LostIn(s.table, s.hubs.Values, s.now) == ClosingTwo(now).table
  {
    var s := TwoUsers(now);
    assert s.hubs[0] in s.hubs.Values && s.hubs[1] in s.hubs.Values;
    assert Lost(FreshHub(now), now) == DeadHub(now);
  }

  lemma SecondArmsAgain(now: int)
    ensures LeadsTo(ClosingTwo(now), Arm(1, 2, 2, 2), ArmedAgain(now))
    ensures TwoAtOnce(ArmedAgain(now), 1)
  {
    var t := Next(ClosingTwo(now), Arm(1, 2, 2, 2));
    assert t.table == ArmedAgain(now).table && t.tasks == ArmedAgain(now).tasks && t.requests == ArmedAgain(now).requests;
    assert Uncancelled(ArmedAgain(now), 1) && Uncancelled(ArmedAgain(now), 2);
  }

  // -------------------------------------------------------------- what follows from it

  /** A re-dial is served: after any safe state, arming and starting opens a stream on a
      hub with a registered listener. */
  lemma RedialIsServed(s: State, user: UserId, newHub: HubId, newTask: TaskId, r: StreamId)
    requires Safe(s) && Enabled(s, Arm(user, newHub, newTask, r))
    ensures
      var t := Next(s, Arm(user, newHub, newTask, r));
      && Safe(t) && Enabled(t, Start(r)) && StartsInTime(t, Start(r))
      && var u, h := Next(t, Start(r)), t.requests[r].hub;
         r in u.table[h].streams && u.table[h].streams[r] == [] && Fed(u, h) && Safe(u)
  {
    var t := Next(s, Arm(user, newHub, newTask, r));
    StepSafe(s, Arm(user, newHub, newTask, r));
    assert t.requests[r] == Request(t.hubs[user], s.now);
    assert t.table[t.hubs[user]].live;
    StepSafe(t, Start(r));
    var u := Next(t, Start(r));
    FedBy(u, user);
  }

  /** Losing the fan-out leaves a sentinel on every stream then open, and turns nobody
      away afterwards. */
  lemma FanoutEndsEveryStream(s: State)
    requires Safe(s)
    ensures forall h | h in s.table ::
              && AllEnding(FanoutLost(s).table[h])
              && FanoutLost(s).table[h].live == s.table[h].live
              && FanoutLost(s).table[h].streams.Keys == s.table[h].streams.Keys
  {
    forall h | h in s.table
      ensures AllEnding(FanoutLost(s).table[h]) && FanoutLost(s).table[h].live == s.table[h].live
      ensures FanoutLost(s).table[h].streams.Keys == s.table[h].streams.Keys
    {
      EndedEnds(s.table[h], s.now);
      if h !in s.hubs.Values {
        assert !Fed(s, h);
      }
    }
  }

  /** A listener that died is replaced before its callback runs: the late callback changes
      nothing but the dead task, so the new listener's hub stays open to new streams. */
  lemma LateCallbackIsHarmless(s: State, user: UserId, newHub: HubId, newTask: TaskId, r: StreamId) returns (dead: TaskId, t: State)
    requires Safe(s) && user in s.listeners && s.tasks[s.listeners[user]].status == Stopped
    requires Enabled(s, Arm(user, newHub, newTask, r))
    ensures dead == s.listeners[user] && t == Next(s, Arm(user, newHub, newTask, r)) && Safe(t)
    ensures t.listeners[user] == newTask != dead && t.tasks[newTask].status == Running && t.table[t.hubs[user]].live
    ensures Enabled(t, CallBack(dead)) && Safe(Next(t, CallBack(dead)))
    ensures Next(t, CallBack(dead)) == t.(tasks := t.tasks[dead := t.tasks[dead].(status := Settled)])
  {
    hide NoOrphans, WillBeFed, OneListener, Clocked;
    dead := s.listeners[user];
    t := Next(s, Arm(user, newHub, newTask, r));
    StepSafe(s, Arm(user, newHub, newTask, r));
    assert t.tasks[dead] == s.tasks[dead] && t.tasks[dead].user == user;
    StepSafe(t, CallBack(dead));
  }

  /** The assumption is needed: a request that waits out the idle time can have its hub
      swept from under it, and then opens a stream nothing will ever feed or end. */
  lemma LateStartIsOrphaned(now: int) returns (steps: seq<Step>, states: seq<State>)
    ensures steps == [Arm(0, 0, 0, 0), Tick(1800), Sweep(0, now), Start(0)]
    ensures |states| == 5 && states[0] == Initial(now)
    ensures forall i | 0 <= i < 4 :: LeadsTo(states[i], steps[i], states[i + 1])
    ensures !StartsInTime(states[3], steps[3]) && !NoOrphans(states[4])
  {
    hide LeadsTo, NoOrphans, OneUser, SweptAway, Orphaned;
    steps := [Arm(0, 0, 0, 0), Tick(IDLE), Sweep(0, now), Start(0)];
    states := [Initial(now), OneUser(now), OneUser(now).(now := now + IDLE), SweptAway(now), Orphaned(now)];
    FirstUserArms(now);
    UserWaits(now);
    UserSwept(now);
    LateStart(now);
  }

  function SweptAway(now: int): State {
    OneUser(now).(hubs := map[], listeners := map[], tasks := map[0 := Task(0, 0, Running, true)], now := now + IDLE)
  }

  function Orphaned(now: int): State {
    SweptAway(now).(requests := map[], table := map[0 := Hub(map[0 := []], true, now + IDLE)])
  }

  lemma UserWaits(now: int)
    ensures LeadsTo(OneUser(now), Tick(IDLE), OneUser(now).(now := now + IDLE))
  {
  }

  lemma UserSwept(now: int)
    ensures LeadsTo(OneUser(now).(now := now + IDLE), Sweep(0, now), SweptAway(now))
  {
    var s := OneUser(now).(now := now + IDLE);
    assert Idle(s.table[0], now);
    assert Swept(s, 0, now).tasks == SweptAway(now).tasks;
  }

  lemma LateStart(now: int)
    ensures LeadsTo(SweptAway(now), Start(0), Orphaned(now))
    ensures !StartsInTime(SweptAway(now), Start(0)) && !NoOrphans(Orphaned(now))
  {
    var s, t := SweptAway(now), Orphaned(now);
    assert Next(s, Start(0)).requests == t.requests;
    assert 0 in t.table && 0 in t.table[0].streams && t.table[0].streams[0] == [] && !Fed(t, 0);
  }
}
