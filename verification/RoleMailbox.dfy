/** Providing one role's mailbox on one account: any number of processes, each with its own
    lock and any number of calls, against a server that never gives one role to two
    mailboxes (section 2 of RFC 8621). Each step is one request reaching the server, or a
    lock changing hands. */
module RoleMailbox {
  import opened Wrappers

  type MailboxId = nat
  type ProcessId = nat
  type CallId = nat

  /** Where a call is. `wasFree` remembers whether the role was free when the server
      refused to create its mailbox. */
  datatype Phase =
    | Waiting
    | Looking
    | Creating
    | Relooking(wasFree: bool)
    | Returned(id: MailboxId)
    | Raised(refusedFree: bool)

  datatype Call = Call(process: ProcessId, phase: Phase)

  /** Who made the role's mailbox: a call of some process, or another program altogether. */
  datatype Maker = Process(id: ProcessId) | Outsider

  datatype Holder = Holder(mailbox: MailboxId, maker: Maker)

  datatype State = State(
    holder: Option<Holder>, locks: map<ProcessId, CallId>, calls: map<CallId, Call>, created: nat)

  datatype Step =
    | Begin(call: CallId, process: ProcessId)
    | Acquire(call: CallId)
    | Look(call: CallId)
    | Create(call: CallId, newMailbox: MailboxId, willing: bool)
    | Relook(call: CallId)
    | OtherProgram(newMailbox: MailboxId)

  predicate At(s: State, call: CallId, phase: Phase) {
    call in s.calls && s.calls[call].phase == phase
  }

  predicate Enabled(s: State, step: Step) {
    match step
    case Begin(call, process) => call !in s.calls
    case Acquire(call) => At(s, call, Waiting) && s.calls[call].process !in s.locks
    case Look(call) => At(s, call, Looking)
    case Create(call, newMailbox, willing) => At(s, call, Creating)
    case Relook(call) => call in s.calls && s.calls[call].phase.Relooking?
    case OtherProgram(newMailbox) => s.holder.None?
  }

  /** A call moving on with the lock, or ending and giving it back. */
  function Moved(s: State, call: CallId, phase: Phase): State
    requires call in s.calls
  {
    s.(calls := s.calls[call := s.calls[call].(phase := phase)])
  }

  function Done(s: State, call: CallId, phase: Phase): State
    requires call in s.calls
  {
    Moved(s, call, phase).(locks := s.locks - {s.calls[call].process})
  }

  function Next(s: State, step: Step): State
    requires Enabled(s, step)
  {
    match step
    case Begin(call, process) => s.(calls := s.calls[call := Call(process, Waiting)])
    case Acquire(call) => Moved(s, call, Looking).(locks := s.locks[s.calls[call].process := call])
    case Look(call) =>
      if s.holder.Some? then Done(s, call, Returned(s.holder.value.mailbox)) else Moved(s, call, Creating)
    case Create(call, newMailbox, willing) =>
      if s.holder.None? && willing then
        Done(s, call, Returned(newMailbox)).(
          holder := Some(Holder(newMailbox, Process(s.calls[call].process))), created := s.created + 1)
      else Moved(s, call, Relooking(s.holder.None?))
    case Relook(call) =>
      if s.holder.Some? then Done(s, call, Returned(s.holder.value.mailbox))
      else Done(s, call, Raised(s.calls[call].phase.wasFree))
    case OtherProgram(newMailbox) => s.(holder := Some(Holder(newMailbox, Outsider)))
  }

  // ------------------------------------------------------------------- invariants

  predicate InLock(phase: Phase) {
    phase in {Looking, Creating} || phase.Relooking?
  }

  /** A call is inside exactly while it holds its process's lock. */
  predicate Exclusive(s: State) {
    && (forall p | p in s.locks :: s.locks[p] in s.calls && s.calls[s.locks[p]].process == p && InLock(s.calls[s.locks[p]].phase))
    && (forall c | c in s.calls && InLock(s.calls[c].phase) :: s.calls[c].process in s.locks && s.locks[s.calls[c].process] == c)
  }

  /** What each phase knows of the server. */
  predicate Informed(s: State) {
    && s.created <= 1 && (s.created == 1 ==> s.holder.Some?)
    && (forall c | c in s.calls :: Knows(s, s.calls[c]))
  }

  predicate Knows(s: State, call: Call) {
    match call.phase
    case Returned(id) => s.holder.Some? && s.holder.value.mailbox == id
    case Relooking(wasFree) =>
      !wasFree ==> s.holder.Some? && s.holder.value.maker != Process(call.process)
    case Raised(refusedFree) => refusedFree
    case Creating => s.holder.Some? ==> s.holder.value.maker != Process(call.process)
    case _ => true
  }

  predicate Safe(s: State) {
    Exclusive(s) && Informed(s)
  }

  lemma StepSafe(s: State, step: Step)
    requires Safe(s) && Enabled(s, step)
    ensures Safe(Next(s, step))
  {
    assert Exclusive(Next(s, step)) by { StepExclusive(s, step); }
    assert Informed(Next(s, step)) by { StepInformed(s, step); }
  }

  lemma StepExclusive(s: State, step: Step)
    requires Exclusive(s) && Enabled(s, step)
    ensures Exclusive(Next(s, step))
  {
  }

  lemma StepInformed(s: State, step: Step)
    requires Safe(s) && Enabled(s, step)
    ensures Informed(Next(s, step))
  {
    var t := Next(s, step);
    forall c | c in t.calls ensures Knows(t, t.calls[c]) {
      if c in s.calls {
        assert Knows(s, s.calls[c]);
      }
    }
  }


  ghost predicate IsRun(steps: seq<Step>, states: seq<State>) {
    && |states| == |steps| + 1 && states[0].calls == map[] && states[0].locks == map[] && states[0].created == 0
    && forall i | 0 <= i < |steps| :: Enabled(states[i], steps[i]) && states[i + 1] == Next(states[i], steps[i])
  }

  lemma {:induction false} RunSafe(steps: seq<Step>, states: seq<State>, n: nat)
    requires IsRun(steps, states) && n < |states|
    ensures Safe(states[n])
  {
    if n > 0 {
      RunSafe(steps, states, n - 1);
      StepSafe(states[n - 1], steps[n - 1]);
    }
  }

  predicate Leads(s: State, step: Step, t: State) {
    Enabled(s, step) && t == Next(s, step)
  }

  /** The state with one call at a phase, inside its process's lock or out of it. */
  function With(s: State, call: CallId, process: ProcessId, phase: Phase): State {
    s.(calls := s.calls[call := Call(process, phase)],
       locks := if InLock(phase) then s.locks[process := call] else s.locks)
  }

  /** A call takes its turn: it waits for the lock, looks, and returns the mailbox there is;
      or else creates one and returns it, or is refused and looks again, and raises only if
      there is still none; overtaken by another program, it returns what that made. */
  lemma CallGetsThrough(s: State, call: CallId, process: ProcessId, mailbox: MailboxId, other: MailboxId)
    requires call !in s.calls && process !in s.locks
    ensures
      var begun, inside := With(s, call, process, Waiting), With(s, call, process, Looking);
      Leads(s, Begin(call, process), begun) && Leads(begun, Acquire(call), inside)
    ensures s.holder.Some? ==>
              Leads(With(s, call, process, Looking), Look(call), With(s, call, process, Returned(s.holder.value.mailbox)))
    ensures s.holder.None? ==>
              var creating := With(s, call, process, Creating);
              var overtaken := creating.(holder := Some(Holder(other, Outsider)));
              && Leads(With(s, call, process, Looking), Look(call), creating)
              && Leads(creating, Create(call, mailbox, true),
                       With(s, call, process, Returned(mailbox)).(holder := Some(Holder(mailbox, Process(process))), created := s.created + 1))
              && Leads(creating, Create(call, mailbox, false), With(s, call, process, Relooking(true)))
              && Leads(With(s, call, process, Relooking(true)), Relook(call), With(s, call, process, Raised(true)))
              && Leads(creating, OtherProgram(other), overtaken)
              && Leads(overtaken, Create(call, mailbox, true), With(overtaken, call, process, Relooking(false)))
              && Leads(With(overtaken, call, process, Relooking(false)), Relook(call),
                       With(s, call, process, Returned(other)).(holder := Some(Holder(other, Outsider))))
  {
    TakesItsTurn(s, call, process);
    if s.holder.None? {
      CreatesOrRaises(s, call, process, mailbox);
      IsOvertaken(s, call, process, mailbox, other);
    }
    hide Leads, With;
  }

  lemma TakesItsTurn(s: State, call: CallId, process: ProcessId)
    requires call !in s.calls && process !in s.locks
    ensures Leads(s, Begin(call, process), With(s, call, process, Waiting))
    ensures Leads(With(s, call, process, Waiting), Acquire(call), With(s, call, process, Looking))
    ensures s.holder.Some? ==>
              Leads(With(s, call, process, Looking), Look(call), With(s, call, process, Returned(s.holder.value.mailbox)))
    ensures s.holder.None? ==> Leads(With(s, call, process, Looking), Look(call), With(s, call, process, Creating))
  {
    assert With(s, call, process, Looking).locks - {process} == s.locks;
  }

  lemma CreatesOrRaises(s: State, call: CallId, process: ProcessId, mailbox: MailboxId)
    requires call !in s.calls && process !in s.locks && s.holder.None?
    ensures
      var creating, refused := With(s, call, process, Creating), With(s, call, process, Relooking(true));
      && Leads(creating, Create(call, mailbox, true),
               With(s, call, process, Returned(mailbox)).(holder := Some(Holder(mailbox, Process(process))), created := s.created + 1))
      && Leads(creating, Create(call, mailbox, false), refused)
      && Leads(refused, Relook(call), With(s, call, process, Raised(true)))
  {
    assert With(s, call, process, Creating).locks - {process} == s.locks;
    assert With(s, call, process, Relooking(true)).locks - {process} == s.locks;
  }

  lemma IsOvertaken(s: State, call: CallId, process: ProcessId, mailbox: MailboxId, other: MailboxId)
    requires call !in s.calls && process !in s.locks && s.holder.None?
    ensures
      var creating := With(s, call, process, Creating);
      var overtaken := creating.(holder := Some(Holder(other, Outsider)));
      && Leads(creating, OtherProgram(other), overtaken)
      && Leads(overtaken, Create(call, mailbox, true), With(overtaken, call, process, Relooking(false)))
      && Leads(With(overtaken, call, process, Relooking(false)), Relook(call),
               With(s, call, process, Returned(other)).(holder := Some(Holder(other, Outsider))))
  {
    assert s.locks[process := call] - {process} == s.locks;
  }

  /** However the calls of however many processes interleave, and whether or not the role
      had a mailbox to begin with: every call that returns returns the same id, that of the
      role's one mailbox, and at most one create succeeds. A call raises only if the server
      refused to create the mailbox while the role was free: losing the race is never an
      error. And a process never loses it to itself. */
  lemma AllAgree(steps: seq<Step>, states: seq<State>, n: nat)
    requires IsRun(steps, states) && n < |states|
    ensures
      var s := states[n];
      && s.created <= 1
      && (forall c, d | c in s.calls && d in s.calls && s.calls[c].phase.Returned? && s.calls[d].phase.Returned? ::
            s.calls[c].phase.id == s.calls[d].phase.id)
      && (forall c | c in s.calls && s.calls[c].phase.Returned? :: s.holder.Some? && s.holder.value.mailbox == s.calls[c].phase.id)
      && (forall c | c in s.calls && s.calls[c].phase.Raised? :: s.calls[c].phase.refusedFree)
      && (forall c | c in s.calls && s.calls[c].phase.Relooking? && !s.calls[c].phase.wasFree ::
            s.holder.Some? && s.holder.value.maker != Process(s.calls[c].process))
      && (forall c, d | c in s.calls && d in s.calls && InLock(s.calls[c].phase) && InLock(s.calls[d].phase)
                        && s.calls[c].process == s.calls[d].process :: c == d)
  {
    RunSafe(steps, states, n);
    var s := states[n];
    assert forall c | c in s.calls :: Knows(s, s.calls[c]);
  }
}
