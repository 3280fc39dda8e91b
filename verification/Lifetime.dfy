/** What holds of the store over whole runs: any sequence of actions, undos, drains,
    destroys and emptyings, in any order. */
module Lifetime {
  import opened Wrappers
  import opened MailStore
  import opened Actions
  import opened Triage
  import opened Undo
  import opened UndoCodec
  import opened Badges
  import opened Labels

  /** Everything the services do to the messages of an account. */
  datatype Event =
    | Acts(kind: Kind, nav: Nav, changes: seq<Change>, removesRows: bool, rider: Rider, r: Result<ActionResult, Failure>)
    | Undoes(spec: UndoSpec)
    | Drains(mailbox: MailboxId, archive: MailboxId, threads: set<ThreadId>, refusing: set<EmailId>)
    | Destroys(nav: Nav, ids: seq<EmailId>)
    | Empties(mailbox: MailboxId, threads: set<ThreadId>)

  ghost predicate Happens(before: Emails, event: Event, after: Emails) {
    match event
    case Acts(kind, nav, changes, removesRows, rider, r) => Performed(before, after, kind, nav, changes, removesRows, rider, r)
    case Undoes(spec) => PartlyUndone(before, after, spec)
    case Drains(mailbox, archive, threads, refusing) => after == Except(before, DrainedIn(before, mailbox, archive, threads), refusing)
    case Destroys(nav, ids) => after == Destroyed(before, ids)
    case Empties(mailbox, threads) => after == EmptiedIn(before, mailbox, threads)
  }

  predicate TakesAway(event: Event) {
    event.Destroys? || event.Empties?
  }

  /** The store before each event, and after the last. */
  ghost predicate IsHistory(stores: seq<Emails>, events: seq<Event>) {
    && |stores| == |events| + 1
    && forall i | 0 <= i < |events| :: Happens(stores[i], events[i], stores[i + 1])
  }

  /** What no event changes about a message that outlives it. */
  ghost predicate SameMessages(before: Emails, after: Emails) {
    && after.Keys <= before.Keys
    && forall id | id in after :: SameMessage(before[id], after[id])
  }

  predicate SameMessage(before: Email, after: Email) {
    after == before.(mailboxes := after.mailboxes, keywords := after.keywords)
  }

  lemma OneEvent(before: Emails, event: Event, after: Emails)
    requires AllFiled(before) && Happens(before, event, after)
    ensures AllFiled(after) && SameMessages(before, after)
    ensures !TakesAway(event) ==> after.Keys == before.Keys
  {
    match event
    case Acts(kind, nav, changes, removesRows, rider, r) =>
      StaysFiled(before, after, kind, nav, changes, removesRows, rider, r);
      ActsSame(before, after, event);
    case Undoes(spec) =>
      PartlyUndoneStaysFiled(before, after, spec);
      UndoesSame(before, after, spec);
    case Drains(mailbox, archive, threads, refusing) => DrainStaysFiled(before, mailbox, archive, threads, refusing);
    case Destroys(_, _) =>
    case Empties(_, _) =>
  }

  lemma ActsSame(before: Emails, after: Emails, event: Event)
    requires event.Acts? && Happens(before, event, after)
    ensures after.Keys == before.Keys && SameMessages(before, after)
  {
    forall id | id in after ensures SameMessage(before[id], after[id]) {
      assert after[id] == before[id] || after[id] == WrittenEmail(before[id], id, event.changes);
    }
  }

  lemma UndoesSame(before: Emails, after: Emails, spec: UndoSpec)
    requires PartlyUndone(before, after, spec)
    ensures after.Keys == before.Keys && SameMessages(before, after)
  {
    hide Undone;
    forall id | id in after ensures SameMessage(before[id], after[id]) {
      assert PartlyUndoneEmail(before[id], after[id], Undone(before, spec)[id]);
    }
  }

  /** Through any history every message stays in some mailbox, none appears or changes but in
      its mailboxes and keywords, and none is lost except to a destroy or an emptying. */
  lemma {:induction false} StaysFiledThroughout(stores: seq<Emails>, events: seq<Event>, n: nat)
    requires IsHistory(stores, events) && AllFiled(stores[0]) && n < |stores|
    ensures AllFiled(stores[n]) && SameMessages(stores[0], stores[n])
    ensures (forall i | 0 <= i < n :: !TakesAway(events[i])) ==> stores[n].Keys == stores[0].Keys
  {
    if n > 0 {
      StaysFiledThroughout(stores, events, n - 1);
      OneEvent(stores[n - 1], events[n - 1], stores[n]);
    }
  }

  // ------------------------------------------------------------------------ badges

  /** Events that answer with badge deltas, all for the same nav. */
  predicate Reports(event: Event, nav: Nav) {
    (event.Acts? && event.nav == nav) || (event.Destroys? && event.nav == nav)
  }

  /** What an event reports: an action that failed reports nothing. */
  ghost function Reported(before: Emails, event: Event): Counts
    requires event.Acts? || event.Destroys?
  {
    match event
    case Acts(_, _, _, _, _, r) => if r.Ok? then r.value.counts else Counts(0, 0)
    case Destroys(nav, ids) => CountsOf(nav, Changes(StatesOf(before, ids), state => {}, NoRider))
  }

  ghost function Total(stores: seq<Emails>, events: seq<Event>, nav: Nav, n: nat): Counts
    requires n <= |events| && |stores| == |events| + 1 && forall event | event in events :: Reports(event, nav)
  {
    if n == 0 then Counts(0, 0)
    else
      assert events[n - 1] in events;
      var sum, last := Total(stores, events, nav, n - 1), Reported(stores[n - 1], events[n - 1]);
      Counts(sum.inbox + last.inbox, sum.drafts + last.drafts)
  }

  /** How far the badges moved. */
  ghost function Moved(before: Emails, after: Emails, nav: Nav): Counts {
    Counts(
      |UnreadIn(after, nav.inboxId)| - |UnreadIn(before, nav.inboxId)|,
      if Drafts in nav.ids then |AllIn(after, nav.ids[Drafts])| - |AllIn(before, nav.ids[Drafts])| else 0)
  }

  /** How far the first `n` events moved them by actions that failed part of the way. */
  ghost function Drift(stores: seq<Emails>, events: seq<Event>, nav: Nav, n: nat): Counts
    requires n <= |events| && |stores| == |events| + 1
  {
    if n == 0 then Counts(0, 0)
    else
      var sum := Drift(stores, events, nav, n - 1);
      if events[n - 1].Acts? && events[n - 1].r.Err? then
        var last := Moved(stores[n - 1], stores[n], nav);
        Counts(sum.inbox + last.inbox, sum.drafts + last.drafts)
      else sum
  }

  lemma ReportedTruly(before: Emails, event: Event, after: Emails, nav: Nav)
    requires Happens(before, event, after) && Reports(event, nav)
    ensures event.Acts? && event.r.Err? ==> Reported(before, event) == Counts(0, 0)
    ensures !(event.Acts? && event.r.Err?) ==>
              var counts := Reported(before, event);
              && counts.inbox == Moved(before, after, nav).inbox
              && (Drafts in nav.ids ==> counts.drafts == Moved(before, after, nav).drafts)
  {
    hide UnreadIn, AllIn, CountsOf, Changes, StatesOf;
    match event
    case Acts(kind, _, changes, removesRows, rider, r) =>
      if r.Ok? {
        PerformedCounts(before, after, kind, nav, changes, removesRows, rider, r);
      }
    case Destroys(_, ids) => DestroyedCounts(before, ids, nav);
  }

  /** A sidebar that only ever adds up the deltas it is told, over any number of actions and
      destroys, is off by just what actions that failed part of the way did to the badges. */
  lemma {:induction false} BadgesAddUp(stores: seq<Emails>, events: seq<Event>, nav: Nav, n: nat)
    requires IsHistory(stores, events) && n <= |events| && forall event | event in events :: Reports(event, nav)
    ensures
      var total, drift, moved := Total(stores, events, nav, n), Drift(stores, events, nav, n), Moved(stores[0], stores[n], nav);
      && total.inbox + drift.inbox == moved.inbox
      && (Drafts in nav.ids ==> total.drafts + drift.drafts == moved.drafts)
  {
    hide Happens, Reported, UnreadIn, AllIn;
    if n > 0 {
      BadgesAddUp(stores, events, nav, n - 1);
      assert events[n - 1] in events;
      ReportedTruly(stores[n - 1], events[n - 1], stores[n], nav);
    }
  }

  /** So it shows the true counts when every action that failed left the store alone. */
  lemma {:induction false} NoDrift(stores: seq<Emails>, events: seq<Event>, nav: Nav, n: nat)
    requires n <= |events| && |stores| == |events| + 1
    requires forall i | 0 <= i < n && events[i].Acts? && events[i].r.Err? :: stores[i + 1] == stores[i]
    ensures Drift(stores, events, nav, n) == Counts(0, 0)
  {
    if n > 0 {
      NoDrift(stores, events, nav, n - 1);
    }
  }

  // ------------------------------------------------------------- undo by way of a token

  /** From the action through its token and back: what undoing the decoded spec leaves. */
  lemma TokenUndoes(before: Emails, after: Emails, kind: Kind, nav: Nav, changes: seq<Change>, removesRows: bool, rider: Rider, r: Result<ActionResult, Failure>,
                    p: Payload, expires: int, scope: Option<string>)
    requires AllFiled(before) && Performed(before, after, kind, nav, changes, removesRows, rider, r) && r.Ok?
    requires Represents(p, r.value.spec, expires, scope)
    ensures DecodeOf(p).Some? && DecodeOf(p).value.expires == expires && DecodeOf(p).value.scope == scope
    ensures
      var undone := Undone(after, DecodeOf(p).value.spec);
      && undone.Keys == before.Keys
      && (forall id | id in before :: undone[id].mailboxes == before[id].mailboxes)
      && (undone == before <==> rider.NoRider? || forall c | c in changes && c.Moved() :: c.Flips())
  {
    hide Undone, Represents, DecodeOf, Restricted, Written, PrevOf;
    RoundTrip(p, r.value.spec, expires, scope);
    ActionSpecsUnrestricted(changes, r.value.spec);
    UndoReturns(before, after, kind, nav, changes, removesRows, rider, r);
  }
}
