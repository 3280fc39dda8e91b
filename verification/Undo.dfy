/** Undoing an action: `undo.apply`, and exactly when it brings the store back. */
module Undo {
  import opened Wrappers
  import opened MailStore
  import opened Actions

  function Restorable(spec: UndoSpec): (ids: seq<EmailId>)
    ensures forall id :: id in ids <==> id in spec.emailIds && id in spec.prev && spec.prev[id] != []
  {
    RestorableAmong(spec.emailIds, spec.prev)
  }

  function RestorableAmong(ids: seq<EmailId>, prev: map<EmailId, seq<MailboxId>>): (r: seq<EmailId>)
    ensures forall id :: id in r <==> id in ids && id in prev && prev[id] != []
  {
    if ids == [] then []
    else
      assert ids == [ids[0]] + ids[1..];
      (if ids[0] in prev && prev[ids[0]] != [] then [ids[0]] else []) + RestorableAmong(ids[1..], prev)
  }

  /** The keyword reversal. */
  function Reversal(rider: Rider): Rider {
    match rider
    case NoRider => NoRider
    case Rider(keyword, on) => Rider(keyword, !on)
  }

  /** The store after undo: recorded placements restored, and the keyword reversed on
      every message the action changed. */
  function Undone(emails: Emails, spec: UndoSpec): (r: Emails)
    ensures r.Keys == emails.Keys
  {
    map id | id in emails :: UndoneEmail(emails[id], id, spec)
  }

  function UndoneEmail(e: Email, id: EmailId, spec: UndoSpec): Email {
    if id in spec.emailIds then
      e.(mailboxes := if id in spec.prev && spec.prev[id] != [] then SetOf(spec.prev[id]) else e.mailboxes,
         keywords := Ridden(e.keywords, Reversal(spec.rider)))
    else e
  }

  /** The mailbox patches undo computes from a fresh snapshot. */
  function PatchesFor(states: seq<EmailState>, prev: map<EmailId, seq<MailboxId>>): (patches: map<EmailId, Patch>)
    requires forall state | state in states :: state.id in prev
    requires forall a, b | a in states && b in states && a.id == b.id :: a == b
  {
    map state | state in states && PatchBetween(state.mailboxes, SetOf(prev[state.id])).Keys != {} ::
      state.id := PatchBetween(state.mailboxes, SetOf(prev[state.id]))
  }

  lemma PatchesForAre(states: seq<EmailState>, prev: map<EmailId, seq<MailboxId>>)
    requires forall state | state in states :: state.id in prev
    requires forall a, b | a in states && b in states && a.id == b.id :: a == b
    ensures
      var patches := PatchesFor(states, prev);
      && (forall id | id in patches :: exists state :: state in states && state.id == id)
      && (forall state | state in states ::
            var patch := PatchBetween(state.mailboxes, SetOf(prev[state.id]));
            (state.id in patches <==> patch.Keys != {}) && (state.id in patches ==> patches[state.id] == patch))
  {
    hide PatchBetween, SetOf;
  }

  /** A message as an undo that failed can leave it: put back or not, and its keyword
      reversed or not. */
  predicate PartlyUndoneEmail(before: Email, after: Email, undone: Email) {
    && after == before.(mailboxes := after.mailboxes, keywords := after.keywords)
    && after.mailboxes in {before.mailboxes, undone.mailboxes}
    && after.keywords in {before.keywords, undone.keywords}
  }

  ghost predicate PartlyUndone(before: Emails, after: Emails, spec: UndoSpec) {
    && after.Keys == before.Keys
    && forall id | id in before :: PartlyUndoneEmail(before[id], after[id], Undone(before, spec)[id])
  }

  predicate AllAccepted(spec: UndoSpec, refusing: set<EmailId>) {
    forall id | id in spec.emailIds :: id !in refusing
  }

  /** `apply`. It succeeds when every message the action changed is still there and the
      server refuses none of them; a success is a whole undo, and so is an error that only
      a missing message caused. Otherwise each message is undone, half undone or as it was,
      and the refused ones are as they were. */
  method Apply(server: Server, spec: UndoSpec) returns (ok: bool)
    modifies server`emails
    ensures ok || AllAccepted(spec, server.refusing) ==> server.emails == Undone(old(server.emails), spec)
    ensures AllAccepted(spec, server.refusing) && (forall id | id in spec.emailIds :: id in old(server.emails)) ==> ok
    ensures PartlyUndone(old(server.emails), server.emails, spec)
    ensures forall id | id in old(server.emails) && id in server.refusing :: server.emails[id] == old(server.emails)[id]
  {
    hide PatchBetween, Patched, PatchesFor, StatesOf, Undone, SetPatches, SetKeyword, Except, PartlyUndone;
    ghost var before := server.emails;
    ok := true;
    var restorable := Restorable(spec);
    var states := server.GetEmailStates(restorable);
    SnapshotMembers(server.emails, restorable);
    var patches := PatchesFor(states, spec.prev);
    PatchesForAre(states, spec.prev);
    var reversal := Reversal(spec.rider);
    var ridesAlong := reversal.Rider? && patches.Keys == set id | id in spec.emailIds;
    var rider := if ridesAlong then reversal else NoRider;
    RestoresAndReverses(before, spec, states, patches, rider);
    Halves(before, spec, patches, rider, server.refusing);
    if patches.Keys != {} {
      ok := server.SetMailboxesPatch(patches, rider);
      if !ok {
        return;
      }
      Unrefused(before, patches, rider, server.refusing);
    } else {
      NothingToPatch(before, patches, rider);
    }
    if reversal.Rider? && !ridesAlong && spec.emailIds != [] {
      ok := server.SetKeywords(spec.emailIds, reversal.keyword, reversal.on);
    }
  }

  /** Whichever writes come through, each message is as it was, or part of the way, or
      undone; with no refusal the second leaves it undone. */
  lemma Halves(before: Emails, spec: UndoSpec, patches: map<EmailId, Patch>, rider: Rider, refusing: set<EmailId>)
    requires Reverses(before, spec, patches, rider)
    ensures
      var patched, undone := SetPatches(before, patches, rider), Undone(before, spec);
      && PartlyUndone(before, Except(before, patched, refusing), spec)
      && PartlyUndone(before, patched, spec)
      && PartlyUndone(before, Except(patched, undone, refusing), spec)
      && (AllAccepted(spec, refusing) && (forall id | id in patches :: id in spec.emailIds) ==> Except(patched, undone, refusing) == undone)
  {
    hide Patched;
    var patched, undone := SetPatches(before, patches, rider), Undone(before, spec);
    forall id | id in before ensures PartlyUndoneEmail(before[id], patched[id], undone[id]) && PartlyUndoneEmail(before[id], undone[id], undone[id]) {
      if rider.NoRider? && spec.rider.Rider? {
        assert SetKeyword(patched, spec.emailIds, spec.rider.keyword, !spec.rider.on)[id] == undone[id];
      }
    }
  }

  lemma Unrefused(emails: Emails, patches: map<EmailId, Patch>, rider: Rider, refusing: set<EmailId>)
    requires forall id | id in patches :: id !in refusing
    ensures Except(emails, SetPatches(emails, patches, rider), refusing) == SetPatches(emails, patches, rider)
  {
    ExceptNothing(emails, SetPatches(emails, patches, rider), refusing);
  }

  lemma NothingToPatch(emails: Emails, patches: map<EmailId, Patch>, rider: Rider)
    requires patches.Keys == {}
    ensures SetPatches(emails, patches, rider) == emails
  {
  }

  lemma SnapshotMembers(emails: Emails, ids: seq<EmailId>)
    ensures forall state | state in StatesOf(emails, ids) ::
              state.id in ids && state.id in emails && state == StateOf(emails, state.id)
    ensures forall id | id in ids && id in emails :: StateOf(emails, id) in StatesOf(emails, ids)
  {
    var states := StatesOf(emails, ids);
    SnapshotIsCurrent(emails, ids);
    forall state | state in states
      ensures state.id in ids && state.id in emails && state == StateOf(emails, state.id)
    {
      var i :| 0 <= i < |states| && states[i] == state;
    }
    forall id | id in ids && id in emails ensures StateOf(emails, id) in states {
      var i :| 0 <= i < |states| && states[i].id == id;
    }
  }

  ghost predicate Reverses(emails: Emails, spec: UndoSpec, patches: map<EmailId, Patch>, rider: Rider) {
    var patched := SetPatches(emails, patches, rider);
    && (rider.Rider? || spec.rider.NoRider? || spec.emailIds == [] ==> patched == Undone(emails, spec))
    && (rider.NoRider? && spec.rider.Rider? ==>
          SetKeyword(patched, spec.emailIds, spec.rider.keyword, !spec.rider.on) == Undone(emails, spec))
  }

  /** One snapshot and one or two writes make the undone store: the patches put every
      restorable message back, and the keyword is reversed on every message the action
      changed, with the patches when they cover those messages and separately otherwise. */
  lemma RestoresAndReverses(emails: Emails, spec: UndoSpec, states: seq<EmailState>, patches: map<EmailId, Patch>, rider: Rider)
    requires states == StatesOf(emails, Restorable(spec))
    requires forall state | state in states :: state.id in spec.prev
    requires forall a, b | a in states && b in states && a.id == b.id :: a == b
    requires patches == PatchesFor(states, spec.prev)
    requires
      var reversal := Reversal(spec.rider);
      var ridesAlong := reversal.Rider? && patches.Keys == set id | id in spec.emailIds;
      rider == if ridesAlong then reversal else NoRider
    ensures forall id | id in patches :: id in emails && id in spec.emailIds && patches[id].Keys != {}
    ensures Reverses(emails, spec, patches, rider)
  {
    PatchesForAre(states, spec.prev);
    hide PatchBetween, Patched, PatchesFor, StatesOf, Restorable;
    SnapshotMembers(emails, Restorable(spec));
    forall id | id in emails ensures SetPatches(emails, patches, rider)[id].mailboxes == UndoneEmail(emails[id], id, spec).mailboxes {
      if id in Restorable(spec) {
        assert StateOf(emails, id) in states;
      }
      Restored(emails, spec, patches, rider, id);
    }
    hide SetOf;
    ReversesTogether(emails, spec, patches, rider);
  }

  /** A message's patch, or the lack of one, puts it where it was. */
  lemma Restored(emails: Emails, spec: UndoSpec, patches: map<EmailId, Patch>, rider: Rider, id: EmailId)
    requires id in emails
    requires id in Restorable(spec) ==>
               var patch := PatchBetween(emails[id].mailboxes, SetOf(spec.prev[id]));
               (id in patches <==> patch.Keys != {}) && (id in patches ==> patches[id] == patch)
    requires id !in Restorable(spec) ==> id !in patches
    ensures SetPatches(emails, patches, rider)[id].mailboxes == UndoneEmail(emails[id], id, spec).mailboxes
  {
    if id in Restorable(spec) && id !in patches {
      NoPatch(emails[id].mailboxes, SetOf(spec.prev[id]));
    }
    hide PatchBetween, Patched;
  }

  lemma ReversesTogether(emails: Emails, spec: UndoSpec, patches: map<EmailId, Patch>, rider: Rider)
    requires forall id | id in emails :: SetPatches(emails, patches, rider)[id].mailboxes == UndoneEmail(emails[id], id, spec).mailboxes
    requires forall id | id in patches :: id in spec.emailIds
    requires
      var reversal := Reversal(spec.rider);
      rider == if reversal.Rider? && patches.Keys == set id | id in spec.emailIds then reversal else NoRider
    ensures Reverses(emails, spec, patches, rider)
  {
    hide Patched, SetOf;
  }

  lemma NoPatch(before: set<MailboxId>, after: set<MailboxId>)
    requires PatchBetween(before, after).Keys == {}
    ensures before == after
  {
    assert (after - before) + (before - after) == {};
  }

  // ------------------------------------------------------------- main results

  lemma PrevIs(changes: seq<Change>, c: Change)
    requires OnePerMessage(changes) && c in changes
    ensures
      var prev := PrevOf(changes);
      && (c.before.id in prev <==> c.Moved())
      && (c.Moved() ==> SetOf(prev[c.before.id]) == c.before.mailboxes)
      && (c.Moved() && c.before.mailboxes != {} ==> prev[c.before.id] != [])
  {
    OneChangeEach(changes);
  }

  lemma KeywordRoundTrip(keywords: set<Keyword>, keyword: Keyword, on: bool)
    ensures
      var back := WithKeyword(WithKeyword(keywords, keyword, on), keyword, !on);
      && back == WithKeyword(keywords, keyword, !on)
      && (back == keywords <==> (keyword in keywords) != on)
  {
  }

  /** What undo leaves of one changed message, precisely: its old placement, and its old
      keywords unless the action moved it without having to change its keyword. */
  lemma UndoneChange(emails: Emails, changes: seq<Change>, spec: UndoSpec, c: Change)
    requires AllFiled(emails) && FromSnapshot(emails, changes) && NoneHomeless(changes)
    requires c in changes && c.Changed()
    requires spec.emailIds == IdsOf(Acted(changes)) && spec.prev == PrevOf(changes) && spec.rider == c.rider
    ensures
      var e := emails[c.before.id];
      var u := Undone(Written(emails, changes), spec)[c.before.id];
      && u.mailboxes == e.mailboxes
      && (c.rider.Rider? && !c.Flips() ==> u.keywords == WithKeyword(e.keywords, c.rider.keyword, !c.rider.on))
      && (u == e <==> c.rider.NoRider? || c.Flips())
  {
    hide Written, PrevOf, SetOf, WithKeyword;
    var id := c.before.id;
    WrittenIs(emails, changes, c);
    PrevIs(changes, c);
    assert c in Acted(changes) && id in spec.emailIds;
    if c.rider.Rider? {
      KeywordRoundTrip(c.before.keywords, c.rider.keyword, c.rider.on);
    }
  }

  /** What undo leaves of any one message. */
  lemma UndoneMessage(emails: Emails, changes: seq<Change>, spec: UndoSpec, rider: Rider, id: EmailId)
    requires AllFiled(emails) && FromSnapshot(emails, changes) && NoneHomeless(changes)
    requires forall c | c in changes :: c.rider == rider
    requires spec.emailIds == IdsOf(Acted(changes)) && spec.prev == PrevOf(changes) && spec.rider == rider
    requires id in emails
    ensures
      var undone := Undone(Written(emails, changes), spec)[id];
      && undone.mailboxes == emails[id].mailboxes
      && (id !in spec.emailIds ==> undone == emails[id])
      && (undone != emails[id] ==> rider.Rider? && exists c :: c in changes && c.Moved() && !c.Flips())
  {
    hide Written, Undone, PrevOf;
    if id in spec.emailIds {
      var c :| c in Acted(changes) && c.before.id == id;
      UndoneChange(emails, changes, spec, c);
    } else {
      UntouchedStays(emails, changes, spec, id);
    }
  }

  /** Undo brings the whole store back exactly when the action had no keyword, or flipped
      it on every message it moved. Placements always come back, and messages the action
      did not change are never touched. */
  lemma UndoInverts(emails: Emails, changes: seq<Change>, spec: UndoSpec, rider: Rider)
    requires AllFiled(emails) && FromSnapshot(emails, changes) && NoneHomeless(changes)
    requires forall c | c in changes :: c.rider == rider
    requires spec.emailIds == IdsOf(Acted(changes)) && spec.prev == PrevOf(changes) && spec.rider == rider
    ensures
      var undone := Undone(Written(emails, changes), spec);
      && undone.Keys == emails.Keys
      && (forall id | id in emails :: undone[id].mailboxes == emails[id].mailboxes)
      && (forall id | id in emails && id !in spec.emailIds :: undone[id] == emails[id])
      && (undone == emails <==> rider.NoRider? || forall c | c in changes && c.Moved() :: c.Flips())
  {
    var undone := Undone(Written(emails, changes), spec);
    hide Written, Undone, PrevOf, NoneHomeless;
    forall id | id in emails
      ensures undone[id].mailboxes == emails[id].mailboxes
      ensures id !in spec.emailIds ==> undone[id] == emails[id]
      ensures undone[id] != emails[id] ==> rider.Rider? && exists c :: c in changes && c.Moved() && !c.Flips()
    {
      UndoneMessage(emails, changes, spec, rider, id);
    }
    if rider.Rider? {
      forall c | c in changes && c.Moved() && undone == emails ensures c.Flips() {
        UndoneChange(emails, changes, spec, c);
      }
    }
  }

  /** The same, said of whatever action was performed and the report it gave. */
  lemma UndoReturns(before: Emails, after: Emails, kind: Kind, nav: Nav, changes: seq<Change>, removesRows: bool, rider: Rider, r: Result<ActionResult, Failure>)
    requires AllFiled(before) && Performed(before, after, kind, nav, changes, removesRows, rider, r) && r.Ok?
    ensures
      var undone := Undone(after, r.value.spec);
      && undone.Keys == before.Keys
      && (forall id | id in before :: undone[id].mailboxes == before[id].mailboxes)
      && (forall id | id in before && id !in r.value.spec.emailIds :: undone[id] == before[id])
      && (undone == before <==> rider.NoRider? || forall c | c in changes && c.Moved() :: c.Flips())
  {
    UndoInverts(before, changes, r.value.spec, rider);
  }

  lemma UntouchedStays(emails: Emails, changes: seq<Change>, spec: UndoSpec, id: EmailId)
    requires FromSnapshot(emails, changes)
    requires spec.emailIds == IdsOf(Acted(changes)) && id in emails && id !in spec.emailIds
    ensures Undone(Written(emails, changes), spec)[id] == emails[id]
  {
    hide Written;
    forall c | c in changes && c.before.id == id ensures !c.Changed() {
      assert c.Changed() ==> c in Acted(changes);
    }
    WrittenElsewhere(emails, changes, id);
  }

  /** Undo never leaves a message nowhere, whatever the spec. */
  lemma UndoStaysFiled(emails: Emails, spec: UndoSpec)
    requires AllFiled(emails)
    ensures AllFiled(Undone(emails, spec))
  {
    forall id | id in emails ensures Undone(emails, spec)[id].mailboxes != {} {
      if id in Restorable(spec) {
        assert spec.prev[id][0] in SetOf(spec.prev[id]);
      }
    }
  }

  /** Nor does one that failed. */
  lemma PartlyUndoneStaysFiled(before: Emails, after: Emails, spec: UndoSpec)
    requires AllFiled(before) && PartlyUndone(before, after, spec)
    ensures AllFiled(after)
  {
    hide Undone;
    UndoStaysFiled(before, spec);
    forall id | id in after ensures after[id].mailboxes != {} {
      assert PartlyUndoneEmail(before[id], after[id], Undone(before, spec)[id]);
    }
  }

  /** An action that moves nothing, as star and mark-read do, is always undone whole. */
  lemma KeywordOnlyUndone(before: Emails, after: Emails, kind: Kind, nav: Nav, changes: seq<Change>, removesRows: bool, rider: Rider, r: Result<ActionResult, Failure>)
    requires AllFiled(before) && Performed(before, after, kind, nav, changes, removesRows, rider, r) && r.Ok?
    requires forall c | c in changes :: !c.Moved()
    ensures Undone(after, r.value.spec) == before
  {
    UndoReturns(before, after, kind, nav, changes, removesRows, rider, r);
  }

  /** The proviso is needed: a message already marked as junk, reported as spam and then
      undone, is back in the Inbox and no longer marked. */
  lemma JunkIsLost(inbox: MailboxId, spam: MailboxId, content: Content) returns (emails: Emails, changes: seq<Change>, spec: UndoSpec)
    requires inbox != spam
    ensures AllFiled(emails) && FromSnapshot(emails, changes) && NoneHomeless(changes)
    ensures changes == [Change(StateOf(map[0 := Email(0, {inbox}, {Junk}, 0, content)], 0), {spam}, Rider(Junk, true))]
    ensures spec == UndoSpec(ReportedSpam, IdsOf(Acted(changes)), PrevOf(changes), Rider(Junk, true))
    ensures emails == map[0 := Email(0, {inbox}, {Junk}, 0, content)]
    ensures Undone(Written(emails, changes), spec) != emails
  {
    emails := map[0 := Email(0, {inbox}, {Junk}, 0, content)];
    var c := Change(StateOf(emails, 0), {spam}, Rider(Junk, true));
    changes := [c];
    spec := UndoSpec(ReportedSpam, IdsOf(Acted(changes)), PrevOf(changes), Rider(Junk, true));
    assert spam in c.after && c.after != {inbox};
    assert c in changes && c.Moved() && !c.Flips();
    UndoInverts(emails, changes, spec, Rider(Junk, true));
  }
}
