/** The triage actions: snapshot, one write, report. Everything an action does and reports
    is derived from its list of changes. */
module Actions {
  import opened Wrappers
  import opened MailStore

  /** One message's before and after. */
  datatype Change = Change(before: EmailState, after: set<MailboxId>, rider: Rider) {
    predicate Moved() {
      after != before.mailboxes
    }

    predicate Flips() {
      rider.Rider? && (rider.keyword in before.keywords) != rider.on
    }

    predicate Changed() {
      Moved() || Flips()
    }

    predicate UnreadBefore() {
      Seen !in before.keywords
    }

    predicate UnreadAfter() {
      if rider.Rider? && rider.keyword == Seen then !rider.on else UnreadBefore()
    }

    function Patch(): Patch {
      PatchBetween(before.mailboxes, after)
    }
  }

  /** The nav as the actions read it: the Inbox, and the role mailboxes it lists. */
  datatype Nav = Nav(inboxId: MailboxId, ids: map<Role, MailboxId>) {
    function Resolve(role: Role): Option<MailboxId> {
      if role in ids then Some(ids[role]) else None
    }
  }

  datatype Kind = Archived | Deleted | ReportedSpam | Starred | MarkedRead | Restored | NotSpam | Labelled | Moved | DestroyedForever | Emptied

  /** What undo needs: where each moved message was, and the keyword to reverse on every
      message that changed. */
  datatype UndoSpec = UndoSpec(
    kind: Kind, emailIds: seq<EmailId>, prev: map<EmailId, seq<MailboxId>>, rider: Rider)

  /** `counts` holds the Inbox and the Drafts badge deltas; an unmoved badge is a zero. */
  datatype Counts = Counts(inbox: int, drafts: int)

  datatype ActionResult = ActionResult(
    spec: UndoSpec, removed: seq<ThreadId>, counts: Counts, undoable: bool)

  datatype Failure = NoSuchRole(role: Role) | LeftHomeless | Rejected | NotUpdated | PartlyApplied(applied: nat, total: nat) | TooMuchMail | BadSelection | Gone | SystemFolder | HasChildren | StillNested

  // ------------------------------------------------------------ sorted id lists

  predicate IsLeast(least: nat, ids: set<nat>) {
    least in ids && forall id | id in ids :: least <= id
  }

  function Least(ids: set<nat>): (least: nat)
    requires ids != {}
    ensures IsLeast(least, ids)
  {
    assert exists least :: IsLeast(least, ids) by {
      var least := FindLeast(ids);
    }
    var least :| IsLeast(least, ids);
    least
  }

  lemma {:induction false} FindLeast(ids: set<nat>) returns (least: nat)
    requires ids != {}
    ensures IsLeast(least, ids)
    decreases |ids|
  {
    var some :| some in ids;
    var rest := ids - {some};
    assert ids == rest + {some};
    least := some;
    if rest != {} {
      var other := FindLeast(rest);
      if other < least {
        least := other;
      }
    }
  }

  /** `sorted(ids)`. */
  function Sorted(ids: set<nat>): (r: seq<nat>)
    ensures forall id :: id in r <==> id in ids
    ensures r == [] <==> ids == {}
    ensures forall i, j | 0 <= i < j < |r| :: r[i] < r[j]
    decreases |ids|
  {
    if ids == {} then []
    else
      var least := Least(ids);
      var r := [least] + Sorted(ids - {least});
      assert least in r;
      r
  }

  // ------------------------------------------------------------------ the write

  /** The changes that change something. */
  function Acted(changes: seq<Change>): (r: seq<Change>)
    ensures forall c :: c in r <==> c in changes && c.Changed()
    ensures |r| <= |changes|
  {
    if changes == [] then []
    else
      assert changes == [changes[0]] + changes[1..];
      (if changes[0].Changed() then [changes[0]] else []) + Acted(changes[1..])
  }

  function IdsOf(changes: seq<Change>): (ids: seq<EmailId>)
    ensures |ids| == |changes| && forall i | 0 <= i < |ids| :: ids[i] == changes[i].before.id
    ensures forall c | c in changes :: c.before.id in ids
    ensures forall id | id in ids :: exists c :: c in changes && c.before.id == id
  {
    var ids := seq(|changes|, i requires 0 <= i < |changes| => changes[i].before.id);
    assert forall i | 0 <= i < |changes| :: ids[i] == changes[i].before.id && changes[i] in changes;
    ids
  }

  /** The changes an action builds: read from this store, one per message, all with the
      action's own rider. */
  ghost predicate FromSnapshot(emails: Emails, changes: seq<Change>) {
    && (forall c | c in changes :: c.before.id in emails && c.before == StateOf(emails, c.before.id))
    && (forall c, d | c in changes && d in changes :: c.rider == d.rider)
    && OnePerMessage(changes)
  }

  predicate OnePerMessage(changes: seq<Change>) {
    forall i, j | 0 <= i < j < |changes| :: changes[i].before.id != changes[j].before.id
  }

  lemma OneChangeEach(changes: seq<Change>)
    requires OnePerMessage(changes)
    ensures forall c, d | c in changes && d in changes && c.before.id == d.before.id :: c == d
  {
    forall c, d | c in changes && d in changes && c.before.id == d.before.id ensures c == d {
      var i :| 0 <= i < |changes| && changes[i] == c;
      var j :| 0 <= j < |changes| && changes[j] == d;
      assert !(i < j) && !(j < i);
    }
  }

  predicate NoneHomeless(changes: seq<Change>) {
    forall c | c in changes && c.Changed() :: c.after != {}
  }

  predicate NoneRefused(changes: seq<Change>, refusing: set<EmailId>) {
    forall c | c in changes && c.Changed() :: c.before.id !in refusing
  }

  /** The store once every change that changes something has been made. */
  ghost function Written(emails: Emails, changes: seq<Change>): (r: Emails)
    ensures r.Keys == emails.Keys
  {
    map id | id in emails :: WrittenEmail(emails[id], id, changes)
  }

  ghost function WrittenEmail(e: Email, id: EmailId, changes: seq<Change>): Email {
    if c :| c in changes && c.before.id == id && c.Changed() then
      e.(mailboxes := c.after, keywords := Ridden(e.keywords, c.rider))
    else e
  }

  /** The patch of every change that changes something. */
  function PatchesOf(changes: seq<Change>): (patches: map<EmailId, Patch>)
    requires OnePerMessage(changes)
  {
    OneChangeEach(changes);
    var acted := Acted(changes);
    map c | c in acted :: c.before.id := c.Patch()
  }

  lemma PatchesAre(changes: seq<Change>)
    requires OnePerMessage(changes)
    ensures forall c | c in changes && c.Changed() :: c.before.id in PatchesOf(changes) && PatchesOf(changes)[c.before.id] == c.Patch()
    ensures forall id | id in PatchesOf(changes) :: exists c :: c in changes && c.Changed() && c.before.id == id
  {
    OneChangeEach(changes);
  }

  /** `_write`: every change in one `Email/set`, or a refusal before anything is sent. A
      server that refuses some of them makes the others all the same. */
  method Write(server: Server, changes: seq<Change>) returns (failure: Option<Failure>)
    requires FromSnapshot(server.emails, changes)
    modifies server`emails
    ensures failure == Some(LeftHomeless) <==> !NoneHomeless(changes)
    ensures failure == Some(NotUpdated) <==> NoneHomeless(changes) && !NoneRefused(changes, server.refusing)
    ensures failure.Some? ==> failure.value in {LeftHomeless, NotUpdated}
    ensures
      server.emails ==
        if NoneHomeless(changes) then Except(old(server.emails), Written(old(server.emails), changes), server.refusing)
        else old(server.emails)
  {
    hide PatchBetween, Written, PatchesOf, Except;
    var acted := Acted(changes);
    if acted == [] {
      NothingActed(server.emails, changes);
      ExceptNothing(server.emails, server.emails, server.refusing);
      return None;
    }
    if exists c | c in acted :: c.after == {} {
      return Some(LeftHomeless);
    }
    var first := acted[0];
    assert first in changes && first.Changed();
    var rider := first.rider;
    var patches := PatchesOf(changes);
    PatchesAre(changes);
    var ok;
    if exists id | id in patches :: patches[id].Keys != {} {
      PatchesWrite(server.emails, changes, patches, rider);
      PatchesSent(server.emails, changes, patches, rider);
      ok := server.SetMailboxesPatch(patches, rider);
    } else {
      assert patches[first.before.id].Keys == {};
      NoPatchNoMove(first);
      KeywordsWrite(server.emails, changes, patches, rider.keyword, rider.on);
      assert forall id | id in IdsOf(acted) :: id in server.emails;
      ok := server.SetKeywords(IdsOf(acted), rider.keyword, rider.on);
    }
    return if ok then None else Some(NotUpdated);
  }

  /** Every message that changes is sent: its patch is not empty, or the rider is there. */
  lemma PatchesSent(emails: Emails, changes: seq<Change>, patches: map<EmailId, Patch>, rider: Rider)
    requires FromSnapshot(emails, changes)
    requires forall c | c in changes :: c.rider == rider
    requires forall c | c in changes && c.Changed() :: c.before.id in patches && patches[c.before.id] == c.Patch()
    requires forall id | id in patches :: exists c :: c in changes && c.Changed() && c.before.id == id
    ensures forall id | id in patches :: id in emails && (patches[id].Keys != {} || rider.Rider?)
  {
    forall id | id in patches ensures id in emails && (patches[id].Keys != {} || rider.Rider?) {
      var c :| c in changes && c.Changed() && c.before.id == id;
      if patches[id].Keys == {} {
        NoPatchNoMove(c);
      }
    }
  }

  lemma NothingActed(emails: Emails, changes: seq<Change>)
    requires Acted(changes) == []
    ensures Written(emails, changes) == emails
  {
    forall id | id in emails ensures WrittenEmail(emails[id], id, changes) == emails[id] {
      assert forall c | c in changes :: c.Changed() ==> c in Acted(changes);
    }
  }

  lemma PatchesWrite(emails: Emails, changes: seq<Change>, patches: map<EmailId, Patch>, rider: Rider)
    requires FromSnapshot(emails, changes)
    requires forall c | c in changes :: c.rider == rider
    requires forall c | c in changes && c.Changed() :: c.before.id in patches && patches[c.before.id] == c.Patch()
    requires forall id | id in patches :: exists c :: c in changes && c.Changed() && c.before.id == id
    ensures SetPatches(emails, patches, rider) == Written(emails, changes)
  {
    forall id | id in emails ensures SetPatches(emails, patches, rider)[id] == WrittenEmail(emails[id], id, changes) {
      if id in patches {
        var c :| c in changes && c.Changed() && c.before.id == id;
        WrittenIs(emails, changes, c);
      }
    }
  }

  lemma KeywordsWrite(emails: Emails, changes: seq<Change>, patches: map<EmailId, Patch>, keyword: Keyword, on: bool)
    requires FromSnapshot(emails, changes)
    requires forall c | c in changes :: c.rider == Rider(keyword, on)
    requires forall c | c in changes && c.Changed() :: c.before.id in patches && patches[c.before.id] == c.Patch()
    requires forall id | id in patches :: patches[id].Keys == {}
    ensures SetKeyword(emails, IdsOf(Acted(changes)), keyword, on) == Written(emails, changes)
  {
    hide PatchBetween, Written;
    var acted := Acted(changes);
    var ids := IdsOf(acted);
    forall id | id in emails ensures SetKeyword(emails, ids, keyword, on)[id] == Written(emails, changes)[id] {
      if id in ids {
        var c :| c in acted && c.before.id == id;
        assert patches[id] == c.Patch();
        NoPatchNoMove(c);
        WrittenIs(emails, changes, c);
      } else {
        WrittenElsewhere(emails, changes, id);
      }
    }
  }

  lemma NoPatchNoMove(c: Change)
    requires c.Patch().Keys == {}
    ensures c.after == c.before.mailboxes
  {
    assert (c.after - c.before.mailboxes) + (c.before.mailboxes - c.after) == {};
  }

  /** What the write makes of one changed message. */
  lemma WrittenIs(emails: Emails, changes: seq<Change>, c: Change)
    requires FromSnapshot(emails, changes) && c in changes
    ensures
      var e := emails[c.before.id];
      Written(emails, changes)[c.before.id]
      == if c.Changed() then e.(mailboxes := c.after, keywords := Ridden(e.keywords, c.rider)) else e
  {
    OneChangeEach(changes);
  }

  /** And of one that no change touches. */
  lemma WrittenElsewhere(emails: Emails, changes: seq<Change>, id: EmailId)
    requires id in emails && forall c | c in changes && c.before.id == id :: !c.Changed()
    ensures Written(emails, changes)[id] == emails[id]
  {
  }

  // ----------------------------------------------------------------- the report

  function Sum(changes: seq<Change>, f: Change -> int): int {
    if changes == [] then 0 else f(changes[0]) + Sum(changes[1..], f)
  }

  function Int(b: bool): int {
    if b then 1 else 0
  }

  function InboxStep(inbox: MailboxId, c: Change): int {
    Int(c.UnreadAfter() && inbox in c.after) - Int(c.UnreadBefore() && inbox in c.before.mailboxes)
  }

  function DraftsStep(drafts: MailboxId, c: Change): int {
    Int(drafts in c.after) - Int(drafts in c.before.mailboxes)
  }

  /** `_counts`. */
  function CountsOf(nav: Nav, changes: seq<Change>): Counts {
    var drafts := nav.Resolve(Drafts);
    Counts(
      Sum(changes, c => InboxStep(nav.inboxId, c)),
      if drafts.Some? then Sum(changes, c => DraftsStep(drafts.value, c)) else 0)
  }

  function PrevOf(changes: seq<Change>): (prev: map<EmailId, seq<MailboxId>>)
    requires OnePerMessage(changes)
    ensures forall id | id in prev :: exists c :: c in changes && c.Moved() && c.before.id == id
  {
    OneChangeEach(changes);
    map c | c in changes && c.Moved() :: c.before.id := Sorted(c.before.mailboxes)
  }

  function ThreadsOf(changes: seq<Change>): seq<ThreadId> {
    seq(|changes|, i requires 0 <= i < |changes| => changes[i].before.thread)
  }

  /** `_result`. */
  function ResultOf(kind: Kind, nav: Nav, changes: seq<Change>, removesRows: bool, rider: Rider, undoable: bool): ActionResult
    requires OnePerMessage(changes)
  {
    ActionResult(
      UndoSpec(
        kind,
        if undoable then IdsOf(Acted(changes)) else [],
        if undoable then PrevOf(changes) else map[],
        rider),
      if removesRows then Dedup(ThreadsOf(changes)) else [],
      CountsOf(nav, changes),
      undoable)
  }

  /** Some of the changes made, and the rest not. */
  ghost predicate PartlyWritten(before: Emails, after: Emails, changes: seq<Change>) {
    && after.Keys == before.Keys
    && forall id | id in before :: after[id] == before[id] || (NoneHomeless(changes) && after[id] == Written(before, changes)[id])
  }

  /** What an action that writes establishes: the store is the old one with the changes made
      and the report is the one these changes make, or it failed and each message is as it
      was or as its change makes it. */
  ghost predicate Performed(before: Emails, after: Emails, kind: Kind, nav: Nav, changes: seq<Change>, removesRows: bool, rider: Rider, r: Result<ActionResult, Failure>) {
    && FromSnapshot(before, changes)
    && (forall c | c in changes :: c.rider == rider)
    && (r.Err? ==> PartlyWritten(before, after, changes))
    && (r.Ok? ==>
          && NoneHomeless(changes)
          && after == Written(before, changes)
          && r.value == ResultOf(kind, nav, changes, removesRows, rider, true))
  }

  /** One change per state, all with the same rider. */
  function Changes(states: seq<EmailState>, after: EmailState -> set<MailboxId>, rider: Rider): (r: seq<Change>)
    ensures |r| == |states|
    ensures forall i | 0 <= i < |r| :: r[i] == Change(states[i], after(states[i]), rider)
  {
    seq(|states|, i requires 0 <= i < |states| => Change(states[i], after(states[i]), rider))
  }

  lemma ChangesFromSnapshot(emails: Emails, states: seq<EmailState>, after: EmailState -> set<MailboxId>, rider: Rider)
    requires Current(emails, states)
    ensures FromSnapshot(emails, Changes(states, after, rider))
    ensures forall c | c in Changes(states, after, rider) :: c.rider == rider && c.after == after(c.before)
  {
    var changes := Changes(states, after, rider);
    forall c | c in changes
      ensures c.before.id in emails && c.before == StateOf(emails, c.before.id) && c.rider == rider && c.after == after(c.before)
    {
      var i :| 0 <= i < |changes| && changes[i] == c;
    }
  }
}
