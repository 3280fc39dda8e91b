/** The actions a reader can take on a selection, and what each leaves in the store. */
module Triage {
  import opened Wrappers
  import opened MailStore
  import opened Actions

  /** Every selected message moved and ridden, every other untouched: what an action that
      puts a message in `after(state)` is for. */
  ghost function Outcome(emails: Emails, ids: seq<EmailId>, after: EmailState -> set<MailboxId>, rider: Rider): (r: Emails)
    ensures r.Keys == emails.Keys
  {
    map id | id in emails ::
      if id in ids then
        emails[id].(mailboxes := after(StateOf(emails, id)), keywords := Ridden(emails[id].keywords, rider))
      else emails[id]
  }

  /** Leaving out the messages that already are as they should be loses nothing. */
  lemma WrittenIsOutcome(emails: Emails, ids: seq<EmailId>, after: EmailState -> set<MailboxId>, rider: Rider)
    ensures
      var changes := Changes(StatesOf(emails, ids), after, rider);
      FromSnapshot(emails, changes) && Written(emails, changes) == Outcome(emails, ids, after, rider)
  {
    hide Written;
    var states := StatesOf(emails, ids);
    var changes := Changes(states, after, rider);
    SnapshotIsCurrent(emails, ids);
    ChangesFromSnapshot(emails, states, after, rider);
    forall id | id in emails ensures Written(emails, changes)[id] == Outcome(emails, ids, after, rider)[id] {
      if id in ids {
        var i :| 0 <= i < |states| && states[i].id == id;
        assert changes[i] in changes;
        WrittenIs(emails, changes, changes[i]);
      } else {
        WrittenElsewhere(emails, changes, id);
      }
    }
  }

  /** An action carried out: every message but those whose update the server refuses ends
      as asked, and an error is raised exactly when some message then is not as asked. */
  ghost predicate Carried(before: Emails, now: Emails, ids: seq<EmailId>, after: EmailState -> set<MailboxId>, rider: Rider, refusing: set<EmailId>, r: Result<ActionResult, Failure>) {
    && now == Except(before, Outcome(before, ids, after, rider), refusing)
    && (r.Ok? <==> now == Outcome(before, ids, after, rider))
    && (r.Err? ==> r.error == NotUpdated)
  }

  /** A refused update shows, since only messages that change are sent. */
  lemma RefusalShows(emails: Emails, changes: seq<Change>, refusing: set<EmailId>)
    requires FromSnapshot(emails, changes)
    ensures NoneRefused(changes, refusing) <==> Except(emails, Written(emails, changes), refusing) == Written(emails, changes)
  {
    hide Written;
    var now := Except(emails, Written(emails, changes), refusing);
    if NoneRefused(changes, refusing) {
      forall id | id in emails && id in refusing ensures Written(emails, changes)[id] == emails[id] {
        WrittenElsewhere(emails, changes, id);
      }
      ExceptNothing(emails, Written(emails, changes), refusing);
    }
    if c :| c in changes && c.Changed() && c.before.id in refusing {
      WrittenIs(emails, changes, c);
      assert now[c.before.id] == emails[c.before.id] != Written(emails, changes)[c.before.id];
    }
  }

  /** The conversations of the selected messages that exist, in the order selected. */
  function Conversations(emails: Emails, ids: seq<EmailId>): seq<ThreadId> {
    if ids == [] then []
    else Conversations(emails, ids[..|ids| - 1]) + if ids[|ids| - 1] in emails then [emails[ids[|ids| - 1]].thread] else []
  }

  lemma {:induction false} ConversationsAppend(emails: Emails, a: seq<EmailId>, b: seq<EmailId>)
    ensures Conversations(emails, a + b) == Conversations(emails, a) + Conversations(emails, b)
  {
    if b == [] {
      assert a + b == a;
    } else {
      var front := b[..|b| - 1];
      ConversationsAppend(emails, a, front);
      assert (a + b)[..|a + b| - 1] == a + front;
    }
  }

  lemma {:induction false} ConversationsAre(emails: Emails, ids: seq<EmailId>)
    ensures forall t :: t in Conversations(emails, ids) <==> exists id | id in ids :: id in emails && emails[id].thread == t
  {
    if ids != [] {
      ConversationsAre(emails, ids[..|ids| - 1]);
      assert ids == ids[..|ids| - 1] + [ids[|ids| - 1]];
    }
  }

  /** Looking at each message once makes no difference to the conversations, each once. */
  lemma {:induction false} ConversationsOnce(emails: Emails, ids: seq<EmailId>)
    ensures Dedup(Conversations(emails, Dedup(ids))) == Dedup(Conversations(emails, ids))
  {
    if ids != [] {
      var front, last := ids[..|ids| - 1], ids[|ids| - 1];
      var before := Conversations(emails, front);
      ConversationsOnce(emails, front);
      ConversationsAre(emails, front);
      var once := Conversations(emails, Dedup(front));
      if last in Dedup(front) {
        if last in emails {
          DedupAppend(before, emails[last].thread);
          assert emails[last].thread in before;
        } else {
          assert before + [] == before;
        }
      } else if last in emails {
        ConversationsAppend(emails, Dedup(front), [last]);
        assert Conversations(emails, [last]) == [emails[last].thread];
        DedupAppend(before, emails[last].thread);
        DedupAppend(once, emails[last].thread);
      } else {
        ConversationsAppend(emails, Dedup(front), [last]);
        assert Conversations(emails, [last]) == [];
        assert once + [] == once && before + [] == before;
      }
    }
  }

  lemma DedupAppend<T(!new)>(s: seq<T>, x: T)
    ensures Dedup(s + [x]) == if x in s then Dedup(s) else Dedup(s) + [x]
  {
    assert (s + [x])[..|s|] == s;
  }

  lemma {:induction false} KnownConversations(emails: Emails, ids: seq<EmailId>, after: EmailState -> set<MailboxId>, rider: Rider)
    ensures ThreadsOf(Changes(Known(emails, ids), after, rider)) == Conversations(emails, ids)
  {
    if ids != [] {
      var rest := ids[1..];
      KnownConversations(emails, rest, after, rider);
      ConversationsAppend(emails, ids[..1], rest);
      assert ids == ids[..1] + rest;
      var all, later := ThreadsOf(Changes(Known(emails, ids), after, rider)), ThreadsOf(Changes(Known(emails, rest), after, rider));
      assert all == (if ids[0] in emails then [emails[ids[0]].thread] else []) + later;
    }
  }

  /** What an action reports when it came through. The rows of the list to remove are the
      conversations of the selection, whether or not the action had to change them, or none.
      What undo is given are exactly the messages that changed, and where those that moved
      were. */
  ghost predicate Tells(before: Emails, now: Emails, ids: seq<EmailId>, kind: Kind, removesRows: bool, rider: Rider, report: ActionResult) {
    && report.spec.kind == kind && report.spec.rider == rider && report.undoable
    && Distinct(report.removed)
    && (forall t :: t in report.removed <==> removesRows && exists id | id in ids :: id in before && before[id].thread == t)
    && (forall i, j | 0 <= i < j < |report.removed| :: Before(Conversations(before, ids), report.removed[i], report.removed[j]))
    && Distinct(report.spec.emailIds) && now.Keys == before.Keys
    && (forall id :: id in report.spec.emailIds <==> id in ids && id in before && now[id] != before[id])
    && (forall id :: id in report.spec.prev <==> id in ids && id in before && now[id].mailboxes != before[id].mailboxes)
    && (forall id | id in report.spec.prev :: SetOf(report.spec.prev[id]) == before[id].mailboxes && Ascending(report.spec.prev[id]))
  }

  predicate Ascending(ids: seq<nat>) {
    forall i, j | 0 <= i < j < |ids| :: ids[i] < ids[j]
  }

  lemma ReportTells(before: Emails, ids: seq<EmailId>, after: EmailState -> set<MailboxId>, kind: Kind, nav: Nav, removesRows: bool, rider: Rider)
    ensures
      var changes := Changes(StatesOf(before, ids), after, rider);
      OnePerMessage(changes) && Tells(before, Outcome(before, ids, after, rider), ids, kind, removesRows, rider, Actions.ResultOf(kind, nav, changes, removesRows, rider, true))
  {
    hide Outcome;
    var changes := Changes(StatesOf(before, ids), after, rider);
    SnapshotIsCurrent(before, ids);
    ChangesFromSnapshot(before, StatesOf(before, ids), after, rider);
    RemovedAre(before, ids, after, rider);
    SpecIs(before, ids, after, rider);
  }

  lemma RemovedAre(before: Emails, ids: seq<EmailId>, after: EmailState -> set<MailboxId>, rider: Rider)
    ensures
      var removed := Dedup(ThreadsOf(Changes(StatesOf(before, ids), after, rider)));
      && Distinct(removed)
      && (forall t :: t in removed <==> exists id | id in ids :: id in before && before[id].thread == t)
      && (forall i, j | 0 <= i < j < |removed| :: Before(Conversations(before, ids), removed[i], removed[j]))
  {
    KnownConversations(before, Dedup(ids), after, rider);
    ConversationsOnce(before, ids);
    ConversationsAre(before, ids);
    DedupOrder(Conversations(before, ids));
    hide Conversations;
  }

  lemma SpecIs(before: Emails, ids: seq<EmailId>, after: EmailState -> set<MailboxId>, rider: Rider)
    ensures
      var changes := Changes(StatesOf(before, ids), after, rider);
      var now := Outcome(before, ids, after, rider);
      && OnePerMessage(changes) && Distinct(IdsOf(Acted(changes)))
      && (forall id :: id in IdsOf(Acted(changes)) <==> id in ids && id in before && now[id] != before[id])
      && (forall id :: id in PrevOf(changes) <==> id in ids && id in before && now[id].mailboxes != before[id].mailboxes)
      && (forall id | id in PrevOf(changes) :: SetOf(PrevOf(changes)[id]) == before[id].mailboxes && Ascending(PrevOf(changes)[id]))
  {
    hide Outcome, PrevOf, Ascending, Distinct, SetOf, StatesOf, Changes;
    var changes := Changes(StatesOf(before, ids), after, rider);
    ChangesAre(before, ids, after, rider);
    ActedOnce(changes);
    IdsDistinct(Acted(changes));
    forall id ensures id in IdsOf(Acted(changes)) <==> id in ids && id in before && Outcome(before, ids, after, rider)[id] != before[id] {
      if id in before && id in ids {
        ChangeShows(before, ids, id, after, rider);
        OneChangeEach(changes);
      }
    }
    forall id ensures id in PrevOf(changes) <==> id in ids && id in before && Outcome(before, ids, after, rider)[id].mailboxes != before[id].mailboxes {
      if id in before && id in ids {
        ChangeShows(before, ids, id, after, rider);
        PrevOfChange(changes, ChangeOf(before, id, after, rider));
      }
    }
    forall id | id in PrevOf(changes) ensures SetOf(PrevOf(changes)[id]) == before[id].mailboxes && Ascending(PrevOf(changes)[id]) {
      PrevOfChange(changes, ChangeOf(before, id, after, rider));
    }
  }

  function ChangeOf(before: Emails, id: EmailId, after: EmailState -> set<MailboxId>, rider: Rider): Change
    requires id in before
  {
    Change(StateOf(before, id), after(StateOf(before, id)), rider)
  }

  lemma ChangesAre(before: Emails, ids: seq<EmailId>, after: EmailState -> set<MailboxId>, rider: Rider)
    ensures
      var changes := Changes(StatesOf(before, ids), after, rider);
      && OnePerMessage(changes)
      && (forall c | c in changes :: c.before.id in ids && c.before.id in before && c == ChangeOf(before, c.before.id, after, rider))
      && (forall id | id in ids && id in before :: ChangeOf(before, id, after, rider) in changes)
  {
    var states := StatesOf(before, ids);
    var changes := Changes(states, after, rider);
    SnapshotIsCurrent(before, ids);
    hide StatesOf;
    forall c | c in changes ensures c.before.id in ids && c.before.id in before && c == ChangeOf(before, c.before.id, after, rider) {
      var i :| 0 <= i < |changes| && changes[i] == c;
      assert states[i].id == c.before.id;
    }
    forall id | id in ids && id in before ensures ChangeOf(before, id, after, rider) in changes {
      var i :| 0 <= i < |states| && states[i].id == id;
      assert changes[i] in changes;
    }
  }

  lemma ChangeShows(before: Emails, ids: seq<EmailId>, id: EmailId, after: EmailState -> set<MailboxId>, rider: Rider)
    requires id in before && id in ids
    ensures
      var now, c := Outcome(before, ids, after, rider)[id], ChangeOf(before, id, after, rider);
      (c.Changed() <==> now != before[id]) && (c.Moved() <==> now.mailboxes != before[id].mailboxes)
  {
  }

  lemma PrevOfChange(changes: seq<Change>, c: Change)
    requires OnePerMessage(changes) && c in changes
    ensures c.before.id in PrevOf(changes) <==> c.Moved()
    ensures c.Moved() ==>
              SetOf(PrevOf(changes)[c.before.id]) == c.before.mailboxes && Ascending(PrevOf(changes)[c.before.id])
  {
    OneChangeEach(changes);
  }

  lemma IdsDistinct(changes: seq<Change>)
    requires OnePerMessage(changes)
    ensures Distinct(IdsOf(changes))
  {
  }

  /** The three beats every action shares: snapshot, one write, report. */
  method Perform(server: Server, nav: Nav, ids: seq<EmailId>, after: EmailState -> set<MailboxId>, rider: Rider, kind: Kind, removesRows: bool)
    returns (r: Result<ActionResult, Failure>)
    modifies server`emails
    ensures
      var changes := Changes(StatesOf(old(server.emails), ids), after, rider);
      && Performed(old(server.emails), server.emails, kind, nav, changes, removesRows, rider, r)
      && if NoneHomeless(changes) then Carried(old(server.emails), server.emails, ids, after, rider, server.refusing, r)
         else r == Err(LeftHomeless) && server.emails == old(server.emails)
    ensures r.Ok? ==> server.emails == Outcome(old(server.emails), ids, after, rider)
    ensures r.Err? ==> r.error in {LeftHomeless, NotUpdated}
    ensures r.Ok? ==> Tells(old(server.emails), server.emails, ids, kind, removesRows, rider, r.value)
  {
    hide Written, Outcome, NoneRefused, NoneHomeless, Tells;
    ReportTells(server.emails, ids, after, kind, nav, removesRows, rider);
    ghost var was := server.emails;
    var states := server.GetEmailStates(ids);
    SnapshotIsCurrent(server.emails, ids);
    var changes := Changes(states, after, rider);
    ChangesFromSnapshot(server.emails, states, after, rider);
    WrittenIsOutcome(server.emails, ids, after, rider);
    RefusalShows(server.emails, changes, server.refusing);
    var failure := Write(server, changes);
    if failure.Some? {
      WrittenPartly(was, changes, server.refusing);
      return Err(failure.value);
    }
    r := Ok(Actions.ResultOf(kind, nav, changes, removesRows, rider, true));
  }

  lemma WrittenPartly(emails: Emails, changes: seq<Change>, refusing: set<EmailId>)
    ensures NoneHomeless(changes) ==> PartlyWritten(emails, Except(emails, Written(emails, changes), refusing), changes)
    ensures PartlyWritten(emails, emails, changes)
  {
    hide Written;
  }

  /** Asking again finishes the job: once the server accepts the rest, the same action on
      the half-changed selection leaves every message as the first was to. */
  lemma RetryFinishes(emails: Emails, ids: seq<EmailId>, after: EmailState -> set<MailboxId>, rider: Rider, refusing: set<EmailId>)
    requires Settles(after)
    ensures
      var half := Except(emails, Outcome(emails, ids, after, rider), refusing);
      Outcome(half, ids, after, rider) == Outcome(emails, ids, after, rider)
  {
    var half := Except(emails, Outcome(emails, ids, after, rider), refusing);
    forall id | id in emails ensures Outcome(half, ids, after, rider)[id] == Outcome(emails, ids, after, rider)[id] {
      var ridden := Ridden(emails[id].keywords, rider);
      if id in ids && id !in refusing {
        assert SettlesAt(after, StateOf(emails, id), ridden);
        assert Ridden(ridden, rider) == ridden;
      }
    }
  }

  /** Where a message is put does not depend on its keywords, and is where it would be put
      again. */
  ghost predicate Settles(after: EmailState -> set<MailboxId>) {
    forall state, keywords :: SettlesAt(after, state, keywords)
  }

  predicate SettlesAt(after: EmailState -> set<MailboxId>, state: EmailState, keywords: set<Keyword>) {
    after(state.(mailboxes := after(state), keywords := keywords)) == after(state)
  }

  lemma PlacingSettles(inbox: MailboxId, archive: MailboxId, target: MailboxId)
    ensures Settles(OutOfInbox(inbox, archive)) && Settles(Into(target)) && Settles(Stay())
  {
    forall state, keywords ensures SettlesAt(OutOfInbox(inbox, archive), state, keywords) {
      assert state.mailboxes - {inbox} - {inbox} == state.mailboxes - {inbox};
    }
    assert forall state, keywords :: SettlesAt(Into(target), state, keywords);
    assert forall state, keywords :: SettlesAt(Stay(), state, keywords);
  }

  lemma RelabellingSettles(adding: set<MailboxId>, removing: set<MailboxId>, archive: MailboxId)
    requires forall id | id in adding :: id !in removing
    ensures Settles(Relabelled(adding, removing, archive))
  {
    forall state, keywords ensures SettlesAt(Relabelled(adding, removing, archive), state, keywords) {
      var once := state.mailboxes + adding - removing;
      if once == {} {
        assert forall id | id in adding :: id in once;
        assert adding == {};
        assert {archive} + adding - removing == if archive in removing then {} else {archive};
      } else {
        assert once + adding - removing == once;
      }
    }
  }

  /** A replacement: into one mailbox and out of every other. */
  function Into(target: MailboxId): EmailState -> set<MailboxId> {
    state => {target}
  }

  function Stay(): EmailState -> set<MailboxId> {
    (state: EmailState) => state.mailboxes
  }

  /** Removing the Inbox would leave this message in no mailbox at all. */
  predicate Homeless(state: EmailState, inbox: MailboxId) {
    state.mailboxes == {inbox}
  }

  /** Out of the Inbox and nothing else, or into Archive if that leaves nothing. */
  function OutOfInbox(inbox: MailboxId, archive: MailboxId): EmailState -> set<MailboxId> {
    (state: EmailState) => if Homeless(state, inbox) then {archive} else state.mailboxes - {inbox}
  }

  /** Labels on and off, or into Archive if that leaves nothing. */
  function Relabelled(adding: set<MailboxId>, removing: set<MailboxId>, archive: MailboxId): EmailState -> set<MailboxId> {
    (state: EmailState) =>
      if state.mailboxes + adding - removing == {} then {archive} else state.mailboxes + adding - removing
  }

  lemma NeverHomeless(states: seq<EmailState>, after: EmailState -> set<MailboxId>, rider: Rider)
    requires forall i | 0 <= i < |states| :: after(states[i]) != {} || after(states[i]) == states[i].mailboxes
    requires rider.NoRider? || forall i | 0 <= i < |states| :: after(states[i]) != {}
    ensures NoneHomeless(Changes(states, after, rider))
  {
    var changes := Changes(states, after, rider);
    forall c | c in changes && c.Changed() ensures c.after != {} {
      var i :| 0 <= i < |changes| && changes[i] == c;
    }
  }

  lemma OutOfInboxNeverHomeless(states: seq<EmailState>, inbox: MailboxId, archive: MailboxId)
    ensures NoneHomeless(Changes(states, OutOfInbox(inbox, archive), NoRider))
  {
    NeverHomeless(states, OutOfInbox(inbox, archive), NoRider);
  }

  lemma RelabelledNeverHomeless(states: seq<EmailState>, adding: set<MailboxId>, removing: set<MailboxId>, archive: MailboxId)
    ensures NoneHomeless(Changes(states, Relabelled(adding, removing, archive), NoRider))
  {
    NeverHomeless(states, Relabelled(adding, removing, archive), NoRider);
  }

  /** When a message needs it, `archive` is the account's Archive mailbox: the one the nav
      lists, or failing that the one the server has, created if it had none. */
  ghost predicate FindsArchive(server: Server, nav: Nav, needed: bool, archive: MailboxId, r: Result<ActionResult, Failure>)
    requires server.Valid()
    reads server`mailboxes, server`parents, server`nextMailbox
  {
    r.Ok? ==>
      && (Archive in nav.ids ==> archive == nav.ids[Archive])
      && (Archive !in nav.ids && needed ==> server.MailboxFor(Archive) == Some(archive))
  }

  /** Otherwise no folder is created. */
  predicate ArchiveUntouched(nav: Nav, needed: bool, before: map<MailboxId, Option<Role>>, after: map<MailboxId, Option<Role>>) {
    Archive in nav.ids || !needed ==> after == before
  }

  /** Archive from the nav or, when a message needs it, from the server, created if there is
      none. */
  method ResolveArchive(server: Server, nav: Nav, needed: bool) returns (archiveId: Option<MailboxId>)
    requires server.Valid()
    modifies server`mailboxes, server`nextMailbox
    ensures server.Valid()
    ensures Archive in nav.ids ==> archiveId == Some(nav.ids[Archive])
    ensures Archive !in nav.ids ==> archiveId == if needed then server.MailboxFor(Archive) else None
    ensures Archive in nav.ids || !needed ==> server.mailboxes == old(server.mailboxes)
    ensures needed && archiveId.None? ==> !server.accepting && old(server.MailboxFor(Archive)).None?
  {
    archiveId := nav.Resolve(Archive);
    if archiveId.None? && needed {
      archiveId := server.EnsureRole(Archive);
    }
  }

  lemma NothingPerformed(emails: Emails, kind: Kind, nav: Nav, ids: seq<EmailId>, after: EmailState -> set<MailboxId>, removesRows: bool, rider: Rider, failure: Failure)
    ensures Performed(emails, emails, kind, nav, Changes(StatesOf(emails, ids), after, rider), removesRows, rider, Err(failure))
  {
    SnapshotIsCurrent(emails, ids);
    ChangesFromSnapshot(emails, StatesOf(emails, ids), after, rider);
  }

  method ArchiveMessages(server: Server, nav: Nav, ids: seq<EmailId>) returns (r: Result<ActionResult, Failure>, ghost archive: MailboxId)
    requires server.Valid()
    modifies server`emails, server`mailboxes, server`nextMailbox
    ensures server.Valid()
    ensures
      if r == Err(Rejected) then server.emails == old(server.emails)
      else Carried(old(server.emails), server.emails, ids, OutOfInbox(nav.inboxId, archive), NoRider, server.refusing, r)
    ensures r == Err(Rejected) ==> !server.accepting && Archive !in nav.ids && old(server.MailboxFor(Archive)).None?
    ensures
      var needed := exists state | state in StatesOf(old(server.emails), ids) :: Homeless(state, nav.inboxId);
      FindsArchive(server, nav, needed, archive, r) && ArchiveUntouched(nav, needed, old(server.mailboxes), server.mailboxes)
    ensures Performed(old(server.emails), server.emails, Archived, nav,
                      Changes(StatesOf(old(server.emails), ids), OutOfInbox(nav.inboxId, archive), NoRider), true, NoRider, r)
    ensures r.Ok? ==> Tells(old(server.emails), server.emails, ids, Archived, true, NoRider, r.value)
  {
    hide Tells, Performed, Carried, Outcome, OutOfInbox, StatesOf, Changes, Server.MailboxFor;
    var states := server.GetEmailStates(ids);
    var needed := exists state | state in states :: Homeless(state, nav.inboxId);
    var archiveId := ResolveArchive(server, nav, needed);
    archive := 0;
    if needed && archiveId.None? {
      NothingPerformed(server.emails, Archived, nav, ids, OutOfInbox(nav.inboxId, archive), true, NoRider, Rejected);
      return Err(Rejected), archive;
    }
    var target := if archiveId.Some? then archiveId.value else 0;
    archive := target;
    OutOfInboxNeverHomeless(states, nav.inboxId, target);
    r := Perform(server, nav, ids, OutOfInbox(nav.inboxId, target), NoRider, Archived, true);
  }

  method Replace(server: Server, nav: Nav, ids: seq<EmailId>, target: MailboxId, rider: Rider, kind: Kind) returns (r: Result<ActionResult, Failure>)
    modifies server`emails
    ensures Carried(old(server.emails), server.emails, ids, Into(target), rider, server.refusing, r)
    ensures Performed(old(server.emails), server.emails, kind, nav,
                      Changes(StatesOf(old(server.emails), ids), Into(target), rider), true, rider, r)
    ensures r.Ok? ==> Tells(old(server.emails), server.emails, ids, kind, true, rider, r.value)
  {
    hide Tells, Performed, Carried, Outcome;
    NeverHomeless(StatesOf(server.emails, ids), Into(target), rider);
    r := Perform(server, nav, ids, Into(target), rider, kind, true);
  }

  method Delete(server: Server, nav: Nav, ids: seq<EmailId>) returns (r: Result<ActionResult, Failure>)
    modifies server`emails
    ensures r == Err(NoSuchRole(Trash)) <==> Trash !in nav.ids
    ensures Trash !in nav.ids ==> server.emails == old(server.emails)
    ensures Trash in nav.ids ==>
              && Carried(old(server.emails), server.emails, ids, Into(nav.ids[Trash]), NoRider, server.refusing, r)
              && Performed(old(server.emails), server.emails, Deleted, nav,
                           Changes(StatesOf(old(server.emails), ids), Into(nav.ids[Trash]), NoRider), true, NoRider, r)
    ensures r.Ok? ==> Tells(old(server.emails), server.emails, ids, Deleted, true, NoRider, r.value)
  {
    var trash := nav.Resolve(Trash);
    if trash.None? {
      return Err(NoSuchRole(Trash));
    }
    r := Replace(server, nav, ids, trash.value, NoRider, Deleted);
  }

  method ReportSpam(server: Server, nav: Nav, ids: seq<EmailId>) returns (r: Result<ActionResult, Failure>)
    modifies server`emails
    ensures r == Err(NoSuchRole(Spam)) <==> Spam !in nav.ids
    ensures Spam !in nav.ids ==> server.emails == old(server.emails)
    ensures Spam in nav.ids ==>
              && Carried(old(server.emails), server.emails, ids, Into(nav.ids[Spam]), Rider(Junk, true), server.refusing, r)
              && Performed(old(server.emails), server.emails, ReportedSpam, nav,
                           Changes(StatesOf(old(server.emails), ids), Into(nav.ids[Spam]), Rider(Junk, true)), true, Rider(Junk, true), r)
    ensures r.Ok? ==> Tells(old(server.emails), server.emails, ids, ReportedSpam, true, Rider(Junk, true), r.value)
  {
    var junk := nav.Resolve(Spam);
    if junk.None? {
      return Err(NoSuchRole(Spam));
    }
    r := Replace(server, nav, ids, junk.value, Rider(Junk, true), ReportedSpam);
  }

  method Restore(server: Server, nav: Nav, ids: seq<EmailId>) returns (r: Result<ActionResult, Failure>)
    modifies server`emails
    ensures Carried(old(server.emails), server.emails, ids, Into(nav.inboxId), NoRider, server.refusing, r)
    ensures Performed(old(server.emails), server.emails, Restored, nav,
                      Changes(StatesOf(old(server.emails), ids), Into(nav.inboxId), NoRider), true, NoRider, r)
    ensures r.Ok? ==> Tells(old(server.emails), server.emails, ids, Restored, true, NoRider, r.value)
  {
    r := Replace(server, nav, ids, nav.inboxId, NoRider, Restored);
  }

  method MarkNotSpam(server: Server, nav: Nav, ids: seq<EmailId>) returns (r: Result<ActionResult, Failure>)
    modifies server`emails
    ensures Carried(old(server.emails), server.emails, ids, Into(nav.inboxId), Rider(Junk, false), server.refusing, r)
    ensures Performed(old(server.emails), server.emails, NotSpam, nav,
                      Changes(StatesOf(old(server.emails), ids), Into(nav.inboxId), Rider(Junk, false)), true, Rider(Junk, false), r)
    ensures r.Ok? ==> Tells(old(server.emails), server.emails, ids, NotSpam, true, Rider(Junk, false), r.value)
  {
    r := Replace(server, nav, ids, nav.inboxId, Rider(Junk, false), NotSpam);
  }

  /** The selected messages that are not yet where `after` puts them. */
  ghost function Due(emails: Emails, ids: seq<EmailId>, after: EmailState -> set<MailboxId>): set<EmailId> {
    set id | id in emails && id in ids && after(StateOf(emails, id)) != emails[id].mailboxes
  }

  /** How a label change or a move ends: as any action does, but that the error counts the
      messages that ended as asked, out of those that were not so at first. */
  ghost predicate Counted(before: Emails, now: Emails, ids: seq<EmailId>, after: EmailState -> set<MailboxId>, refusing: set<EmailId>, r: Result<ActionResult, Failure>) {
    var due := Due(before, ids, after);
    && now == Except(before, Outcome(before, ids, after, NoRider), refusing)
    && (r.Ok? <==> now == Outcome(before, ids, after, NoRider))
    && (r.Ok? <==> due * refusing == {})
    && (r.Err? ==> r.error == PartlyApplied(|due - refusing|, |due|) && |due - refusing| < |due|)
  }

  ghost function InForce(emails: Emails, changes: seq<Change>): set<EmailId> {
    set c | c in changes && c.before.id in emails && emails[c.before.id].mailboxes == c.after :: c.before.id
  }

  function Wanted(acted: seq<Change>): (wanted: map<EmailId, set<MailboxId>>)
    requires OnePerMessage(acted)
    ensures forall c | c in acted :: c.before.id in wanted && wanted[c.before.id] == c.after
    ensures forall id | id in wanted :: exists c :: c in acted && c.before.id == id
  {
    OneChangeEach(acted);
    map c | c in acted :: c.before.id := c.after
  }

  function CountWanted(states: seq<EmailState>, wanted: map<EmailId, set<MailboxId>>): nat {
    if states == [] then 0
    else
      var rest := CountWanted(states[1..], wanted);
      if states[0].id in wanted && states[0].mailboxes == wanted[states[0].id] then rest + 1 else rest
  }

  /** `_landed`: how many of the changes are in force, read anew from the server. */
  method Landed(server: Server, acted: seq<Change>) returns (n: nat)
    requires OnePerMessage(acted)
    ensures n == |InForce(server.emails, acted)|
  {
    hide StatesOf, InForce, CountWanted, Wanted;
    var states := server.GetEmailStates(IdsOf(acted));
    n := CountWanted(states, Wanted(acted));
    SnapshotIsCurrent(server.emails, IdsOf(acted));
    CountIsInForce(server.emails, acted, states, InForce(server.emails, acted));
  }

  lemma CountIsInForce(emails: Emails, acted: seq<Change>, states: seq<EmailState>, inForce: set<EmailId>)
    requires OnePerMessage(acted) && Current(emails, states) && inForce == InForce(emails, acted)
    requires forall id :: (exists i | 0 <= i < |states| :: states[i].id == id) <==> id in IdsOf(acted) && id in emails
    ensures CountWanted(states, Wanted(acted)) == |inForce|
  {
    hide CountWanted, Wanted;
    var wanted := Wanted(acted);
    forall id | id in inForce ensures exists i | 0 <= i < |states| :: states[i].id == id && id in wanted && states[i].mailboxes == wanted[id] {
      var c :| c in acted && c.before.id == id && emails[id].mailboxes == c.after;
      var i :| 0 <= i < |states| && states[i].id == id;
      assert states[i] == StateOf(emails, id);
    }
    forall i | 0 <= i < |states| && states[i].id in wanted && states[i].mailboxes == wanted[states[i].id] ensures states[i].id in inForce {
      var c :| c in acted && c.before.id == states[i].id;
      assert states[i] == StateOf(emails, states[i].id);
    }
    CountIsSize(states, wanted, inForce);
  }

  lemma {:induction false} CountIsSize(states: seq<EmailState>, wanted: map<EmailId, set<MailboxId>>, found: set<EmailId>)
    requires forall i, j | 0 <= i < j < |states| :: states[i].id != states[j].id
    requires forall id | id in found :: exists i | 0 <= i < |states| :: states[i].id == id && id in wanted && states[i].mailboxes == wanted[id]
    requires forall i | 0 <= i < |states| && states[i].id in wanted && states[i].mailboxes == wanted[states[i].id] :: states[i].id in found
    ensures CountWanted(states, wanted) == |found|
  {
    if states == [] {
      assert found == {};
    } else {
      var rest := states[1..];
      assert forall i | 0 <= i < |rest| :: rest[i] == states[i + 1];
      forall id | id in found - {states[0].id}
        ensures exists i | 0 <= i < |rest| :: rest[i].id == id && id in wanted && rest[i].mailboxes == wanted[id]
      {
        var i :| 0 <= i < |states| && states[i].id == id && id in wanted && states[i].mailboxes == wanted[id];
        assert rest[i - 1] == states[i];
      }
      CountIsSize(rest, wanted, found - {states[0].id});
    }
  }

  /** Of the changes that change something, those in force after a write are the ones the
      server did not refuse. */
  lemma LandedIs(emails: Emails, ids: seq<EmailId>, after: EmailState -> set<MailboxId>, refusing: set<EmailId>)
    ensures
      var changes := Changes(StatesOf(emails, ids), after, NoRider);
      var now := Except(emails, Outcome(emails, ids, after, NoRider), refusing);
      && OnePerMessage(Acted(changes))
      && |Acted(changes)| == |Due(emails, ids, after)|
      && InForce(now, Acted(changes)) == Due(emails, ids, after) - refusing
      && (now == Outcome(emails, ids, after, NoRider) <==> Due(emails, ids, after) * refusing == {})
  {
    hide Outcome, Except, InForce, Due;
    var changes := Changes(StatesOf(emails, ids), after, NoRider);
    var acted := Acted(changes);
    SnapshotIsCurrent(emails, ids);
    ChangesFromSnapshot(emails, StatesOf(emails, ids), after, NoRider);
    ActedOnce(changes);
    ActedAreDue(emails, ids, after);
    DistinctCount(IdsOf(acted), Due(emails, ids, after));
    ActedInForce(emails, ids, after, refusing);
    DueShows(emails, ids, after, refusing);
  }

  lemma {:induction false} ActedOnce(changes: seq<Change>)
    requires OnePerMessage(changes)
    ensures OnePerMessage(Acted(changes))
  {
    if changes != [] {
      var rest := changes[1..];
      assert forall i | 0 <= i < |rest| :: rest[i] == changes[i + 1];
      ActedOnce(rest);
      var later := Acted(rest);
      forall i | 0 <= i < |later| ensures later[i].before.id != changes[0].before.id {
        assert later[i] in later;
        var j :| 0 <= j < |rest| && rest[j] == later[i];
      }
    }
  }

  /** The messages that change are the ones due. */
  lemma ActedAreDue(emails: Emails, ids: seq<EmailId>, after: EmailState -> set<MailboxId>)
    ensures
      var acted := Acted(Changes(StatesOf(emails, ids), after, NoRider));
      && (forall c | c in acted :: c.before.id in Due(emails, ids, after) && c.after == after(StateOf(emails, c.before.id)))
      && (forall id | id in Due(emails, ids, after) :: exists c :: c in acted && c.before.id == id)
      && (forall id :: id in IdsOf(acted) <==> id in Due(emails, ids, after))
  {
    hide Acted, StatesOf;
    var states := StatesOf(emails, ids);
    var changes := Changes(states, after, NoRider);
    SnapshotIsCurrent(emails, ids);
    ChangesFromSnapshot(emails, states, after, NoRider);
    forall c | c in Acted(changes) ensures c.before.id in Due(emails, ids, after) && c.after == after(StateOf(emails, c.before.id)) {
      var i :| 0 <= i < |changes| && changes[i] == c;
      assert states[i].id == c.before.id;
    }
    forall id | id in Due(emails, ids, after) ensures exists c :: c in Acted(changes) && c.before.id == id {
      var i :| 0 <= i < |states| && states[i].id == id;
      assert changes[i] in changes && changes[i].Changed();
    }
  }

  lemma ActedInForce(emails: Emails, ids: seq<EmailId>, after: EmailState -> set<MailboxId>, refusing: set<EmailId>)
    ensures InForce(Except(emails, Outcome(emails, ids, after, NoRider), refusing), Acted(Changes(StatesOf(emails, ids), after, NoRider)))
            == Due(emails, ids, after) - refusing
  {
    hide Acted, StatesOf;
    var acted := Acted(Changes(StatesOf(emails, ids), after, NoRider));
    var now := Except(emails, Outcome(emails, ids, after, NoRider), refusing);
    ActedAreDue(emails, ids, after);
    hide Changes;
    forall id ensures id in InForce(now, acted) <==> id in Due(emails, ids, after) - refusing {
      if id in Due(emails, ids, after) - refusing {
        var c :| c in acted && c.before.id == id;
        assert now[id].mailboxes == c.after;
      }
    }
  }

  lemma DueShows(emails: Emails, ids: seq<EmailId>, after: EmailState -> set<MailboxId>, refusing: set<EmailId>)
    ensures
      var outcome := Outcome(emails, ids, after, NoRider);
      Except(emails, outcome, refusing) == outcome <==> Due(emails, ids, after) * refusing == {}
  {
    var outcome := Outcome(emails, ids, after, NoRider);
    if Due(emails, ids, after) * refusing == {} {
      forall id | id in emails && id in refusing ensures outcome[id] == emails[id] {
        assert id !in Due(emails, ids, after) * refusing;
      }
      ExceptNothing(emails, outcome, refusing);
    } else {
      var id :| id in Due(emails, ids, after) * refusing;
      assert outcome[id] != emails[id];
    }
  }

  lemma AnyFailure(before: Emails, after: Emails, kind: Kind, nav: Nav, ids: seq<EmailId>, place: EmailState -> set<MailboxId>, removesRows: bool, some: Failure, other: Failure)
    requires Performed(before, after, kind, nav, Changes(StatesOf(before, ids), place, NoRider), removesRows, NoRider, Err(some))
    ensures Performed(before, after, kind, nav, Changes(StatesOf(before, ids), place, NoRider), removesRows, NoRider, Err(other))
  {
  }

  /** A label change or a move whose write failed says how far it got. */
  method PerformCounted(server: Server, nav: Nav, ids: seq<EmailId>, after: EmailState -> set<MailboxId>, kind: Kind, removesRows: bool)
    returns (r: Result<ActionResult, Failure>)
    requires NoneHomeless(Changes(StatesOf(server.emails, ids), after, NoRider))
    modifies server`emails
    ensures Counted(old(server.emails), server.emails, ids, after, server.refusing, r)
    ensures Performed(old(server.emails), server.emails, kind, nav,
                      Changes(StatesOf(old(server.emails), ids), after, NoRider), removesRows, NoRider, r)
    ensures r.Ok? ==> Tells(old(server.emails), server.emails, ids, kind, removesRows, NoRider, r.value)
    ensures r.Err? ==> r.error.PartlyApplied?
  {
    hide Tells, Performed, Outcome, Due, InForce, Except;
    ghost var was := server.emails;
    LandedIs(server.emails, ids, after, server.refusing);
    DueLeft(Due(server.emails, ids, after), server.refusing);
    var states := server.GetEmailStates(ids);
    var acted := Acted(Changes(states, after, NoRider));
    r := Perform(server, nav, ids, after, NoRider, kind, removesRows);
    if r.Err? {
      var applied := Landed(server, acted);
      AnyFailure(was, server.emails, kind, nav, ids, after, removesRows, r.error, PartlyApplied(applied, |acted|));
      r := Err(PartlyApplied(applied, |acted|));
    }
  }

  lemma DueLeft(due: set<EmailId>, refusing: set<EmailId>)
    ensures due * refusing != {} ==> |due - refusing| < |due|
  {
    assert due == (due - refusing) + (due * refusing);
  }

  method MoveTo(server: Server, nav: Nav, ids: seq<EmailId>, target: MailboxId) returns (r: Result<ActionResult, Failure>)
    modifies server`emails
    ensures Counted(old(server.emails), server.emails, ids, Into(target), server.refusing, r)
    ensures Performed(old(server.emails), server.emails, Moved, nav,
                      Changes(StatesOf(old(server.emails), ids), Into(target), NoRider), true, NoRider, r)
    ensures r.Ok? ==> Tells(old(server.emails), server.emails, ids, Moved, true, NoRider, r.value)
  {
    hide Tells, Performed, Counted;
    NeverHomeless(StatesOf(server.emails, ids), Into(target), NoRider);
    r := PerformCounted(server, nav, ids, Into(target), Moved, true);
  }

  /** Star and mark-read: a keyword and nothing else. The shared write
      refuses to leave a changed message nowhere, which in a legal store it never does. */
  method Flag(server: Server, nav: Nav, ids: seq<EmailId>, keyword: Keyword, on: bool, kind: Kind) returns (r: Result<ActionResult, Failure>)
    modifies server`emails
    ensures AllFiled(old(server.emails)) ==> Carried(old(server.emails), server.emails, ids, Stay(), Rider(keyword, on), server.refusing, r)
    ensures r.Ok? ==> server.emails == Outcome(old(server.emails), ids, Stay(), Rider(keyword, on))
    ensures Performed(old(server.emails), server.emails, kind, nav,
                      Changes(StatesOf(old(server.emails), ids), Stay(), Rider(keyword, on)), false, Rider(keyword, on), r)
    ensures r.Ok? ==> Tells(old(server.emails), server.emails, ids, kind, false, Rider(keyword, on), r.value)
  {
    hide Tells, Performed, Carried, Outcome;
    SnapshotIsCurrent(server.emails, ids);
    if AllFiled(server.emails) {
      NeverHomeless(StatesOf(server.emails, ids), Stay(), Rider(keyword, on));
    }
    r := Perform(server, nav, ids, Stay(), Rider(keyword, on), kind, false);
  }

  method Star(server: Server, nav: Nav, ids: seq<EmailId>, on: bool) returns (r: Result<ActionResult, Failure>)
    modifies server`emails
    ensures AllFiled(old(server.emails)) ==> Carried(old(server.emails), server.emails, ids, Stay(), Rider(Flagged, on), server.refusing, r)
    ensures r.Ok? ==> server.emails == Outcome(old(server.emails), ids, Stay(), Rider(Flagged, on))
    ensures Performed(old(server.emails), server.emails, Starred, nav,
                      Changes(StatesOf(old(server.emails), ids), Stay(), Rider(Flagged, on)), false, Rider(Flagged, on), r)
    ensures r.Ok? ==> Tells(old(server.emails), server.emails, ids, Starred, false, Rider(Flagged, on), r.value)
  {
    r := Flag(server, nav, ids, Flagged, on, Starred);
  }

  method MarkRead(server: Server, nav: Nav, ids: seq<EmailId>, on: bool) returns (r: Result<ActionResult, Failure>)
    modifies server`emails
    ensures AllFiled(old(server.emails)) ==> Carried(old(server.emails), server.emails, ids, Stay(), Rider(Seen, on), server.refusing, r)
    ensures r.Ok? ==> server.emails == Outcome(old(server.emails), ids, Stay(), Rider(Seen, on))
    ensures Performed(old(server.emails), server.emails, MarkedRead, nav,
                      Changes(StatesOf(old(server.emails), ids), Stay(), Rider(Seen, on)), false, Rider(Seen, on), r)
    ensures r.Ok? ==> Tells(old(server.emails), server.emails, ids, MarkedRead, false, Rider(Seen, on), r.value)
  {
    r := Flag(server, nav, ids, Seen, on, MarkedRead);
  }

  /** The change would leave some message nowhere. */
  predicate AnyNowhere(states: seq<EmailState>, adding: set<MailboxId>, removing: set<MailboxId>) {
    exists state | state in states :: state.mailboxes + adding - removing == {}
  }

  lemma NowhereIs(emails: Emails, ids: seq<EmailId>, adding: set<MailboxId>, removing: set<MailboxId>)
    ensures AnyNowhere(StatesOf(emails, ids), adding, removing) <==>
            exists id | id in ids :: id in emails && forall m | m in emails[id].mailboxes || m in adding :: m in removing
  {
    var states := StatesOf(emails, ids);
    SnapshotIsCurrent(emails, ids);
    hide StatesOf;
    if AnyNowhere(states, adding, removing) {
      var state :| state in states && state.mailboxes + adding - removing == {};
      var i :| 0 <= i < |states| && states[i] == state;
      assert state.id in ids && state == StateOf(emails, state.id);
      forall m | m in state.mailboxes || m in adding ensures m in removing {
        assert m !in state.mailboxes + adding - removing;
      }
    }
    if id :| id in ids && id in emails && forall m | m in emails[id].mailboxes || m in adding :: m in removing {
      var i :| 0 <= i < |states| && states[i].id == id;
      assert states[i] in states && states[i].mailboxes + adding - removing == {};
    }
  }

  /** `apply_labels`: several labels on and off in one write. */
  method ApplyLabels(server: Server, nav: Nav, ids: seq<EmailId>, add: seq<MailboxId>, remove: seq<MailboxId>)
    returns (r: Result<ActionResult, Failure>, ghost archive: MailboxId)
    requires server.Valid()
    modifies server`emails, server`mailboxes, server`nextMailbox
    ensures server.Valid()
    ensures r == Err(BadSelection) <==> (add == [] && remove == []) || exists id | id in add :: id in remove
    ensures r == Err(Rejected) ==> !server.accepting && Archive !in nav.ids && old(server.MailboxFor(Archive)).None?
    ensures
      var after := Relabelled(SetOf(add), SetOf(remove), archive);
      && (if r == Err(BadSelection) || r == Err(Rejected) then server.emails == old(server.emails)
          else Counted(old(server.emails), server.emails, ids, after, server.refusing, r))
      && Performed(old(server.emails), server.emails, Labelled, nav,
                   Changes(StatesOf(old(server.emails), ids), after, NoRider), false, NoRider, r)
    ensures r.Ok? ==> Tells(old(server.emails), server.emails, ids, Labelled, false, NoRider, r.value)
    ensures
      var needed := AnyNowhere(StatesOf(old(server.emails), ids), SetOf(add), SetOf(remove));
      FindsArchive(server, nav, needed, archive, r) && ArchiveUntouched(nav, needed, old(server.mailboxes), server.mailboxes)
  {
    hide Tells, Performed, Counted, Relabelled, StatesOf, AnyNowhere, Changes, SetOf, Server.MailboxFor;
    archive := 0;
    var addIds, removeIds := Dedup(add), Dedup(remove);
    var adding, removing := SetOf(add), SetOf(remove);
    NothingPerformed(server.emails, Labelled, nav, ids, Relabelled(adding, removing, 0), false, NoRider, BadSelection);
    NothingPerformed(server.emails, Labelled, nav, ids, Relabelled(adding, removing, 0), false, NoRider, Rejected);
    if addIds == [] && removeIds == [] {
      return Err(BadSelection), archive;
    }
    if exists id | id in addIds :: id in removeIds {
      return Err(BadSelection), archive;
    }
    var states := server.GetEmailStates(ids);
    var needed := AnyNowhere(states, adding, removing);
    var archiveId := ResolveArchive(server, nav, needed);
    if needed && archiveId.None? {
      return Err(Rejected), archive;
    }
    var target := if archiveId.Some? then archiveId.value else 0;
    archive := target;
    RelabelledNeverHomeless(states, adding, removing, target);
    r := PerformCounted(server, nav, ids, Relabelled(adding, removing, target), Labelled, false);
  }

  /** `destroy`: not a move, so not through the write that refuses to empty a placement. */
  method Destroy(server: Server, nav: Nav, ids: seq<EmailId>) returns (r: ActionResult)
    modifies server`emails, server`listing
    ensures server.emails == Destroyed(old(server.emails), ids)
    ensures
      var changes := Changes(StatesOf(old(server.emails), ids), state => {}, NoRider);
      FromSnapshot(old(server.emails), changes) && r == Actions.ResultOf(DestroyedForever, nav, changes, true, NoRider, false)
    ensures r.spec == UndoSpec(DestroyedForever, [], map[], NoRider) && !r.undoable && Distinct(r.removed)
    ensures forall t :: t in r.removed <==> exists id | id in ids :: id in old(server.emails) && old(server.emails)[id].thread == t
  {
    var states := server.GetEmailStates(ids);
    SnapshotIsCurrent(server.emails, ids);
    var changes := Changes(states, state => {}, NoRider);
    ChangesFromSnapshot(server.emails, states, state => {}, NoRider);
    var doomed := IdsOf(changes);
    forall id | id in server.emails ensures id in doomed <==> id in ids {
      if id in ids {
        var i :| 0 <= i < |states| && states[i].id == id;
        assert changes[i] in changes;
      }
      if id in doomed {
        var c :| c in changes && c.before.id == id;
        var i :| 0 <= i < |changes| && changes[i] == c;
        assert states[i].id == id;
      }
    }
    RemovedAre(server.emails, ids, state => {}, NoRider);
    server.DestroyEmails(doomed);
    r := Actions.ResultOf(DestroyedForever, nav, changes, true, NoRider, false);
  }

  // --------------------------------------------------------------- properties

  /** What each action makes of one message, told in mailboxes and keywords. */
  lemma ActionsMean(emails: Emails, ids: seq<EmailId>, id: EmailId, inbox: MailboxId, archive: MailboxId, target: MailboxId,
                    adding: set<MailboxId>, removing: set<MailboxId>, keyword: Keyword)
    requires id in emails
    ensures
      var e := emails[id];
      if id !in ids then
        && Outcome(emails, ids, OutOfInbox(inbox, archive), NoRider)[id] == e
        && Outcome(emails, ids, Into(target), Rider(keyword, true))[id] == e
        && Outcome(emails, ids, Stay(), Rider(keyword, false))[id] == e
        && Outcome(emails, ids, Relabelled(adding, removing, archive), NoRider)[id] == e
      else
        && Outcome(emails, ids, OutOfInbox(inbox, archive), NoRider)[id]
           == e.(mailboxes := if e.mailboxes == {inbox} then {archive} else e.mailboxes - {inbox})
        && Outcome(emails, ids, Into(target), NoRider)[id] == e.(mailboxes := {target})
        && Outcome(emails, ids, Into(target), Rider(keyword, true))[id] == e.(mailboxes := {target}, keywords := e.keywords + {keyword})
        && Outcome(emails, ids, Into(target), Rider(keyword, false))[id] == e.(mailboxes := {target}, keywords := e.keywords - {keyword})
        && Outcome(emails, ids, Stay(), Rider(keyword, true))[id] == e.(keywords := e.keywords + {keyword})
        && Outcome(emails, ids, Stay(), Rider(keyword, false))[id] == e.(keywords := e.keywords - {keyword})
        && Outcome(emails, ids, Relabelled(adding, removing, archive), NoRider)[id]
           == e.(mailboxes := if forall m | m in e.mailboxes || m in adding :: m in removing then {archive} else (e.mailboxes + adding) - removing)
  {
    var all := emails[id].mailboxes + adding - removing;
    if forall m | m in emails[id].mailboxes || m in adding :: m in removing {
      assert all == {};
    } else {
      var m :| (m in emails[id].mailboxes || m in adding) && m !in removing;
      assert m in all;
    }
  }

  /** A store of filed messages stays one through every action that writes: a write that
      would leave a changed message nowhere is refused, and what is not changed stays. */
  lemma StaysFiled(before: Emails, after: Emails, kind: Kind, nav: Nav, changes: seq<Change>, removesRows: bool, rider: Rider, r: Result<ActionResult, Failure>)
    requires AllFiled(before) && Performed(before, after, kind, nav, changes, removesRows, rider, r)
    ensures AllFiled(after)
  {
    hide Written, ResultOf;
    forall id | id in after ensures after[id].mailboxes != {} {
      if after[id] != before[id] {
        WrittenFiled(before, changes, id);
      }
    }
  }

  lemma WrittenFiled(before: Emails, changes: seq<Change>, id: EmailId)
    requires AllFiled(before) && FromSnapshot(before, changes) && NoneHomeless(changes) && id in before
    ensures Written(before, changes)[id].mailboxes != {}
  {
    hide Written;
    if c :| c in changes && c.before.id == id && c.Changed() {
      WrittenIs(before, changes, c);
    } else {
      WrittenElsewhere(before, changes, id);
    }
  }
}
