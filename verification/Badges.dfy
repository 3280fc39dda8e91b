/** The nav badges: the deltas an action reports are the true changes in what the badges
    count, message by message. */
module Badges {
  import opened Wrappers
  import opened MailStore
  import opened Actions
  import opened Triage

  /** What the Inbox badge counts. */
  function UnreadIn(emails: Emails, inbox: MailboxId): set<EmailId> {
    set id | id in emails && IsUnreadIn(emails[id], inbox)
  }

  predicate IsUnreadIn(e: Email, inbox: MailboxId) {
    Seen !in e.keywords && inbox in e.mailboxes
  }

  /** What the Drafts badge counts. */
  function AllIn(emails: Emails, mailbox: MailboxId): set<EmailId> {
    set id | id in emails && mailbox in emails[id].mailboxes
  }

  /** Two sets that differ only on the messages of a list of changes differ in size by the
      sum of the differences. */
  lemma {:induction false} SumOfSteps(changes: seq<Change>, f: Change -> int, before: set<EmailId>, after: set<EmailId>)
    requires OnePerMessage(changes)
    requires forall c | c in changes :: f(c) == Int(c.before.id in after) - Int(c.before.id in before)
    requires forall id :: (forall c | c in changes :: c.before.id != id) ==> (id in before <==> id in after)
    ensures Sum(changes, f) == |after| - |before|
  {
    if changes == [] {
      assert before == after;
    } else {
      var first, rest := changes[0], changes[1..];
      var id := first.before.id;
      var mid := With(before, id, id in after);
      HeadApart(changes);
      forall other | forall c | c in rest :: c.before.id != other ensures other in mid <==> other in after {
        if other != id {
          assert forall c | c in changes :: c.before.id != other;
        }
      }
      SumOfSteps(rest, f, mid, after);
      SizeWith(before, id, id in after);
    }
  }

  function With(ids: set<EmailId>, id: EmailId, present: bool): (r: set<EmailId>)
    ensures forall other :: other in r <==> if other == id then present else other in ids
  {
    if present then ids + {id} else ids - {id}
  }

  lemma SizeWith(ids: set<EmailId>, id: EmailId, present: bool)
    ensures |With(ids, id, present)| == |ids| + Int(present) - Int(id in ids)
  {
    if present && id in ids {
      assert ids + {id} == ids;
    }
    if !present && id !in ids {
      assert ids - {id} == ids;
    }
  }

  lemma HeadApart(changes: seq<Change>)
    requires changes != [] && OnePerMessage(changes)
    ensures forall c :: c in changes <==> c == changes[0] || c in changes[1..]
    ensures forall c | c in changes[1..] :: c.before.id != changes[0].before.id
    ensures OnePerMessage(changes[1..])
  {
    assert changes == [changes[0]] + changes[1..];
    assert forall i | 0 <= i < |changes| - 1 :: changes[1..][i] == changes[i + 1];
  }

  lemma InboxStepTrue(emails: Emails, changes: seq<Change>, inbox: MailboxId, c: Change)
    requires FromSnapshot(emails, changes) && c in changes
    ensures
      var id := c.before.id;
      InboxStep(inbox, c) == Int(id in UnreadIn(Written(emails, changes), inbox)) - Int(id in UnreadIn(emails, inbox))
  {
    hide Written;
    WrittenIs(emails, changes, c);
  }

  lemma DraftsStepTrue(emails: Emails, changes: seq<Change>, drafts: MailboxId, c: Change)
    requires FromSnapshot(emails, changes) && c in changes
    ensures
      var id := c.before.id;
      DraftsStep(drafts, c) == Int(id in AllIn(Written(emails, changes), drafts)) - Int(id in AllIn(emails, drafts))
  {
    hide Written;
    WrittenIs(emails, changes, c);
  }

  lemma ElsewhereSame(emails: Emails, changes: seq<Change>, id: EmailId)
    requires FromSnapshot(emails, changes) && forall c | c in changes :: c.before.id != id
    ensures id in emails <==> id in Written(emails, changes)
    ensures id in emails ==> Written(emails, changes)[id] == emails[id]
  {
    if id in emails {
      WrittenElsewhere(emails, changes, id);
    }
  }

  /** The reported Inbox delta is the true change in unread Inbox messages and the reported
      Drafts delta the true change in Drafts messages, for every action that writes. */
  lemma WrittenCounts(emails: Emails, changes: seq<Change>, nav: Nav)
    requires FromSnapshot(emails, changes)
    ensures
      var after := Written(emails, changes);
      var counts := CountsOf(nav, changes);
      && counts.inbox == |UnreadIn(after, nav.inboxId)| - |UnreadIn(emails, nav.inboxId)|
      && (Drafts in nav.ids ==> counts.drafts == |AllIn(after, nav.ids[Drafts])| - |AllIn(emails, nav.ids[Drafts])|)
      && (Drafts !in nav.ids ==> counts.drafts == 0)
  {
    hide Written;
    var after := Written(emails, changes);
    forall id | forall c | c in changes :: c.before.id != id
      ensures id in emails <==> id in after
      ensures id in emails ==> after[id] == emails[id]
    {
      ElsewhereSame(emails, changes, id);
    }
    forall c | c in changes
      ensures InboxStep(nav.inboxId, c) == Int(c.before.id in UnreadIn(after, nav.inboxId)) - Int(c.before.id in UnreadIn(emails, nav.inboxId))
    {
      InboxStepTrue(emails, changes, nav.inboxId, c);
    }
    SumOfSteps(changes, c => InboxStep(nav.inboxId, c), UnreadIn(emails, nav.inboxId), UnreadIn(after, nav.inboxId));
    if Drafts in nav.ids {
      var drafts := nav.ids[Drafts];
      forall c | c in changes
        ensures DraftsStep(drafts, c) == Int(c.before.id in AllIn(after, drafts)) - Int(c.before.id in AllIn(emails, drafts))
      {
        DraftsStepTrue(emails, changes, drafts, c);
      }
      SumOfSteps(changes, c => DraftsStep(drafts, c), AllIn(emails, drafts), AllIn(after, drafts));
      SumsAgree(changes, c => DraftsStep(drafts, c), c => DraftsStep(nav.Resolve(Drafts).value, c));
    }
    SumsAgree(changes, c => InboxStep(nav.inboxId, c), c => InboxStep(nav.inboxId, c));
  }

  lemma {:induction false} SumsAgree(changes: seq<Change>, f: Change -> int, g: Change -> int)
    requires forall c | c in changes :: f(c) == g(c)
    ensures Sum(changes, f) == Sum(changes, g)
  {
    if changes != [] {
      assert changes[0] in changes;
      SumsAgree(changes[1..], f, g);
    }
  }

  /** And for destroying: a destroyed message leaves every count it was in. */
  lemma DestroyedCounts(emails: Emails, ids: seq<EmailId>, nav: Nav)
    ensures
      var after := Destroyed(emails, ids);
      var counts := CountsOf(nav, Changes(StatesOf(emails, ids), state => {}, NoRider));
      && counts.inbox == |UnreadIn(after, nav.inboxId)| - |UnreadIn(emails, nav.inboxId)|
      && (Drafts in nav.ids ==> counts.drafts == |AllIn(after, nav.ids[Drafts])| - |AllIn(emails, nav.ids[Drafts])|)
      && (Drafts !in nav.ids ==> counts.drafts == 0)
  {
    var states := StatesOf(emails, ids);
    var changes := Changes(states, state => {}, NoRider);
    var after := Destroyed(emails, ids);
    SnapshotIsCurrent(emails, ids);
    ChangesFromSnapshot(emails, states, state => {}, NoRider);
    forall c | c in changes ensures c.before.id in ids && c.before.id in emails && c.before == StateOf(emails, c.before.id) && c.after == {} {
      var i :| 0 <= i < |changes| && changes[i] == c;
      assert states[i].id == c.before.id;
    }
    forall id | id in emails && id in ids ensures exists c :: c in changes && c.before.id == id {
      var i :| 0 <= i < |states| && states[i].id == id;
      assert changes[i] in changes;
    }
    SumOfSteps(changes, c => InboxStep(nav.inboxId, c), UnreadIn(emails, nav.inboxId), UnreadIn(after, nav.inboxId));
    SumsAgree(changes, c => InboxStep(nav.inboxId, c), c => InboxStep(nav.inboxId, c));
    if Drafts in nav.ids {
      var drafts := nav.ids[Drafts];
      SumOfSteps(changes, c => DraftsStep(drafts, c), AllIn(emails, drafts), AllIn(after, drafts));
      SumsAgree(changes, c => DraftsStep(drafts, c), c => DraftsStep(nav.Resolve(Drafts).value, c));
    }
  }

  /** What an action that was performed reports in its badges. */
  lemma PerformedCounts(before: Emails, after: Emails, kind: Kind, nav: Nav, changes: seq<Change>, removesRows: bool, rider: Rider, r: Result<ActionResult, Failure>)
    requires Performed(before, after, kind, nav, changes, removesRows, rider, r) && r.Ok?
    ensures
      && r.value.counts.inbox == |UnreadIn(after, nav.inboxId)| - |UnreadIn(before, nav.inboxId)|
      && (Drafts in nav.ids ==> r.value.counts.drafts == |AllIn(after, nav.ids[Drafts])| - |AllIn(before, nav.ids[Drafts])|)
      && (Drafts !in nav.ids ==> r.value.counts.drafts == 0)
  {
    hide Written;
    WrittenCounts(before, changes, nav);
  }

  /** Emptying a mailbox reports no badge change. That is the truth exactly when none of
      its messages is in Inbox too and unread, or in Drafts too. */
  lemma EmptiedCounts(emails: Emails, mailbox: MailboxId, nav: Nav)
    ensures
      var after := map id | id in emails && mailbox !in emails[id].mailboxes :: emails[id];
      && (|UnreadIn(after, nav.inboxId)| == |UnreadIn(emails, nav.inboxId)|
          <==> forall id | id in emails && mailbox in emails[id].mailboxes :: !IsUnreadIn(emails[id], nav.inboxId))
      && (Drafts in nav.ids ==>
            (|AllIn(after, nav.ids[Drafts])| == |AllIn(emails, nav.ids[Drafts])|
             <==> forall id | id in emails && mailbox in emails[id].mailboxes :: nav.ids[Drafts] !in emails[id].mailboxes))
  {
    var after := map id | id in emails && mailbox !in emails[id].mailboxes :: emails[id];
    var unread, unreadAfter := UnreadIn(emails, nav.inboxId), UnreadIn(after, nav.inboxId);
    SameSize(unreadAfter, unread);
    assert forall id | id in unread :: id in unreadAfter <==> mailbox !in emails[id].mailboxes;
    assert forall id | id in emails && IsUnreadIn(emails[id], nav.inboxId) :: id in unread;
    if Drafts in nav.ids {
      var drafts, draftsAfter := AllIn(emails, nav.ids[Drafts]), AllIn(after, nav.ids[Drafts]);
      SameSize(draftsAfter, drafts);
      assert forall id | id in drafts :: id in draftsAfter <==> mailbox !in emails[id].mailboxes;
      assert forall id | id in emails && nav.ids[Drafts] in emails[id].mailboxes :: id in drafts;
    }
  }

  lemma SameSize(some: set<EmailId>, all: set<EmailId>)
    requires some <= all
    ensures |some| == |all| <==> forall id | id in all :: id in some
  {
    assert all == some + (all - some);
    if |some| == |all| {
      assert all - some == {};
    } else {
      assert some != all;
    }
  }
}
