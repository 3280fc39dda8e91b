/** The mail server as the services see it through `JmapClient`: a store of messages, a
    list of mailboxes, and the handful of calls the actions make. Patches follow section
    5.3 of RFC 8620. The server may refuse the update of a message, but does not
    judge what the others are sent, so that "every message stays in some mailbox" is the
    services' own achievement. */
module MailStore {
  import opened Wrappers

  type EmailId = nat
  type ThreadId = nat
  type MailboxId = nat

  datatype Keyword = Seen | Flagged | Junk | OtherKeyword(name: string)

  /** What a list row shows of a message; nothing here ever changes it. */
  datatype Content = Content(sender: string, subject: Option<string>, preview: string, attachment: bool)

  datatype Email = Email(
    thread: ThreadId, mailboxes: set<MailboxId>, keywords: set<Keyword>, receivedAt: int, content: Content)

  type Emails = map<EmailId, Email>

  /** Section 4.1.1 of RFC 8621: a message is in at least one mailbox. */
  predicate AllFiled(emails: Emails) {
    forall id | id in emails :: emails[id].mailboxes != {}
  }

  /** What `Email/get` answers for one message. */
  datatype EmailState = EmailState(
    id: EmailId, thread: ThreadId, mailboxes: set<MailboxId>, keywords: set<Keyword>)

  datatype Role = Inbox | Sent | Drafts | Archive | Spam | Trash

  // -------------------------------------------------------------- snapshotting

  /** `list(dict.fromkeys(ids))`: each id once, where it first appears. */
  function Dedup<T(==,!new)>(ids: seq<T>): (r: seq<T>)
    ensures forall x :: x in r <==> x in ids
    ensures Distinct(r)
    ensures r == [] <==> ids == []
  {
    if ids == [] then []
    else
      var last := ids[|ids| - 1];
      var r := Dedup(ids[..|ids| - 1]);
      assert ids == ids[..|ids| - 1] + [last];
      if last in r then r else r + [last]
  }

  /** The order is that of the first appearances. */
  lemma {:induction false} DedupOrder<T(!new)>(ids: seq<T>)
    ensures forall i, j | 0 <= i < j < |Dedup(ids)| :: Before(ids, Dedup(ids)[i], Dedup(ids)[j])
  {
    if ids != [] {
      var front := ids[..|ids| - 1];
      DedupOrder(front);
      forall i, j | 0 <= i < j < |Dedup(ids)| ensures Before(ids, Dedup(ids)[i], Dedup(ids)[j]) {
        var a, b := Dedup(ids)[i], Dedup(ids)[j];
        if j < |Dedup(front)| {
          var k :| 0 <= k < |front| && front[k] == a && forall l | 0 <= l <= k :: front[l] != b;
          assert ids[k] == a && forall l | 0 <= l <= k :: ids[l] == front[l];
        } else {
          assert a in Dedup(front) && b !in front;
          var k :| 0 <= k < |front| && front[k] == a;
          assert ids[k] == a && forall l | 0 <= l <= k :: ids[l] == front[l] && front[l] in front;
        }
      }
    }
  }

  /** `a` appears before `b` does. */
  ghost predicate Before<T(!new)>(ids: seq<T>, a: T, b: T) {
    exists k | 0 <= k < |ids| :: ids[k] == a && forall l | 0 <= l <= k :: ids[l] != b
  }

  function StateOf(emails: Emails, id: EmailId): EmailState
    requires id in emails
  {
    EmailState(id, emails[id].thread, emails[id].mailboxes, emails[id].keywords)
  }

  /** One state per distinct id the store knows, in the order asked for. */
  function StatesOf(emails: Emails, ids: seq<EmailId>): seq<EmailState> {
    Known(emails, Dedup(ids))
  }

  function Known(emails: Emails, ids: seq<EmailId>): seq<EmailState> {
    if ids == [] then []
    else (if ids[0] in emails then [StateOf(emails, ids[0])] else []) + Known(emails, ids[1..])
  }

  /** States that were read from this store, one per message. */
  predicate Current(emails: Emails, states: seq<EmailState>) {
    && (forall i | 0 <= i < |states| :: states[i].id in emails && states[i] == StateOf(emails, states[i].id))
    && (forall i, j | 0 <= i < j < |states| :: states[i].id != states[j].id)
  }

  ghost predicate Names(states: seq<EmailState>, id: EmailId) {
    exists i :: 0 <= i < |states| && states[i].id == id
  }

  lemma {:induction false} KnownIsCurrent(emails: Emails, ids: seq<EmailId>)
    requires Distinct(ids)
    ensures Current(emails, Known(emails, ids))
    ensures forall id :: Names(Known(emails, ids), id) <==> id in ids && id in emails
  {
    if ids != [] {
      RestDistinct(ids);
      KnownIsCurrent(emails, ids[1..]);
      hide Distinct, Names;
      assert forall id :: id in ids <==> id == ids[0] || id in ids[1..];
      if ids[0] in emails {
        OneMoreKnown(emails, StateOf(emails, ids[0]), Known(emails, ids[1..]));
      } else {
        assert Known(emails, ids) == Known(emails, ids[1..]);
      }
    } else {
      assert forall id :: !Names([], id);
    }
  }

  lemma OneMoreKnown(emails: Emails, state: EmailState, rest: seq<EmailState>)
    requires Current(emails, rest) && state.id in emails && state == StateOf(emails, state.id) && !Names(rest, state.id)
    ensures Current(emails, [state] + rest)
    ensures forall id :: Names([state] + rest, id) <==> id == state.id || Names(rest, id)
  {
    var states := [state] + rest;
    assert states[0] == state && forall i | 1 <= i < |states| :: states[i] == rest[i - 1];
    assert forall i | 0 <= i < |rest| :: rest[i] == states[i + 1];
  }

  /** A snapshot names exactly the selected messages that exist, each once, as they are. */
  lemma SnapshotIsCurrent(emails: Emails, ids: seq<EmailId>)
    ensures Current(emails, StatesOf(emails, ids))
    ensures forall id :: (exists i | 0 <= i < |StatesOf(emails, ids)| :: StatesOf(emails, ids)[i].id == id) <==> id in ids && id in emails
  {
    KnownIsCurrent(emails, Dedup(ids));
    assert forall id :: Names(StatesOf(emails, ids), id) <==> exists i | 0 <= i < |StatesOf(emails, ids)| :: StatesOf(emails, ids)[i].id == id;
  }

  // ------------------------------------------------------------------ patching

  /** `{mailbox: true}` adds, `{mailbox: null}` (here false) removes. */
  type Patch = map<MailboxId, bool>

  /** The patch that turns one mailbox set into another. */
  function PatchBetween(before: set<MailboxId>, after: set<MailboxId>): (patch: Patch)
    ensures patch.Keys == (after - before) + (before - after)
    ensures Patched(before, patch) == after
  {
    var patch := (map id | id in after - before :: true) + (map id | id in before - after :: false);
    assert Patched(before, patch) == after;
    patch
  }

  function Patched(mailboxes: set<MailboxId>, patch: Patch): set<MailboxId> {
    (set id | id in mailboxes && (id in patch ==> patch[id])) + (set id | id in patch && patch[id])
  }

  function WithKeyword(keywords: set<Keyword>, keyword: Keyword, on: bool): set<Keyword> {
    if on then keywords + {keyword} else keywords - {keyword}
  }

  /** A keyword rider, or none. */
  datatype Rider = NoRider | Rider(keyword: Keyword, on: bool)

  function Ridden(keywords: set<Keyword>, rider: Rider): set<Keyword> {
    match rider
    case NoRider => keywords
    case Rider(keyword, on) => WithKeyword(keywords, keyword, on)
  }

  /** One `Email/set` with per-message mailbox patches and a shared rider. */
  function SetPatches(emails: Emails, patches: map<EmailId, Patch>, rider: Rider): (r: Emails)
    ensures r.Keys == emails.Keys
  {
    map id | id in emails ::
      if id in patches then
        emails[id].(mailboxes := Patched(emails[id].mailboxes, patches[id]),
                    keywords := Ridden(emails[id].keywords, rider))
      else emails[id]
  }

  function SetKeyword(emails: Emails, ids: seq<EmailId>, keyword: Keyword, on: bool): (r: Emails)
    ensures r.Keys == emails.Keys
  {
    map id | id in emails ::
      if id in ids then emails[id].(keywords := WithKeyword(emails[id].keywords, keyword, on))
      else emails[id]
  }

  /** What a write leaves when the updates of some messages are refused (section 5.3 of RFC
      8620): those are as they were, and the others as the write makes them. */
  function Except(before: Emails, after: Emails, refusing: set<EmailId>): (r: Emails)
    requires after.Keys == before.Keys
    ensures r.Keys == before.Keys
    ensures forall id | id in before && id in refusing :: r[id] == before[id]
  {
    map id | id in before :: if id in refusing then before[id] else after[id]
  }

  lemma ExceptNothing(before: Emails, after: Emails, refusing: set<EmailId>)
    requires after.Keys == before.Keys
    requires forall id | id in before && id in refusing :: after[id] == before[id]
    ensures Except(before, after, refusing) == after
  {
  }

  function Destroyed(emails: Emails, ids: seq<EmailId>): Emails {
    map id | id in emails && id !in ids :: emails[id]
  }

  // ------------------------------------------------------------------- listing

  /** The order the server sorts by: `receivedAt`, descending. */
  predicate IsListing(emails: Emails, listing: seq<EmailId>) {
    && Distinct(listing)
    && (forall id | id in listing :: id in emails)
    && (forall id | id in emails :: id in listing)
    && forall i, j | 0 <= i < j < |listing| :: emails[listing[i]].receivedAt >= emails[listing[j]].receivedAt
  }

  function Without(ids: seq<EmailId>, gone: seq<EmailId>): (r: seq<EmailId>)
    ensures forall id :: id in r <==> id in ids && id !in gone
  {
    if ids == [] then []
    else
      assert ids == [ids[0]] + ids[1..];
      (if ids[0] in gone then [] else [ids[0]]) + Without(ids[1..], gone)
  }

  /** Patching neither adds nor removes a message nor changes when it arrived. */
  lemma ListingKept(emails: Emails, patched: Emails, listing: seq<EmailId>)
    requires IsListing(emails, listing) && patched.Keys == emails.Keys
    requires forall id | id in emails :: patched[id].receivedAt == emails[id].receivedAt
    ensures IsListing(patched, listing)
  {
  }

  lemma {:induction false} WithoutSorted(emails: Emails, listing: seq<EmailId>, gone: seq<EmailId>)
    requires Distinct(listing) && forall id | id in listing :: id in emails
    requires forall i, j | 0 <= i < j < |listing| :: emails[listing[i]].receivedAt >= emails[listing[j]].receivedAt
    ensures
      var r := Without(listing, gone);
      && Distinct(r)
      && forall i, j | 0 <= i < j < |r| :: emails[r[i]].receivedAt >= emails[r[j]].receivedAt
  {
    if listing != [] {
      var rest := listing[1..];
      assert forall i | 0 <= i < |rest| :: rest[i] == listing[i + 1];
      WithoutSorted(emails, rest, gone);
      var r := Without(rest, gone);
      forall i | 0 <= i < |r| ensures r[i] != listing[0] && emails[listing[0]].receivedAt >= emails[r[i]].receivedAt {
        assert r[i] in rest;
      }
    }
  }

  /** Destroying messages leaves the rest listed. */
  lemma ListingAfterDestroy(emails: Emails, listing: seq<EmailId>, gone: seq<EmailId>)
    requires IsListing(emails, listing)
    ensures IsListing(Destroyed(emails, gone), Without(listing, gone))
  {
    WithoutSorted(emails, listing, gone);
    var r := Without(listing, gone);
    assert forall i | 0 <= i < |r| :: r[i] in r;
  }

  // -------------------------------------------------------------------- server

  function NestedIn(mailboxes: map<MailboxId, Option<Role>>, parents: map<MailboxId, MailboxId>, id: MailboxId, labels: bool): set<MailboxId>
    requires forall m | m in parents :: m in mailboxes
  {
    set m | m in parents && parents[m] == id && mailboxes[m].None? == labels
  }

  lemma NestedAre(mailboxes: map<MailboxId, Option<Role>>, parents: map<MailboxId, MailboxId>, id: MailboxId, m: MailboxId)
    requires forall x | x in parents :: x in mailboxes
    ensures m in NestedIn(mailboxes, parents, id, true) <==> m in parents && parents[m] == id && mailboxes[m] == None
    ensures m in NestedIn(mailboxes, parents, id, false) <==> m in parents && parents[m] == id && mailboxes[m] != None
  {
  }

  class Server {
    var emails: Emails
    /** Every message, newest first; ties fall however the server likes. */
    var listing: seq<EmailId>
    /** The account's mailboxes; a label is one without a role. */
    var mailboxes: map<MailboxId, Option<Role>>
    /** The mailbox each nested one is directly under. */
    var parents: map<MailboxId, MailboxId>
    /** The messages whose updates the server refuses. */
    var refusing: set<EmailId>
    /** Whether the account accepts another mailbox at all. */
    var accepting: bool
    var nextMailbox: MailboxId

    ghost predicate Valid()
      reads `mailboxes, `parents, `nextMailbox
    {
      && (forall id | id in mailboxes :: id < nextMailbox)
      && (forall id | id in parents :: id in mailboxes)
      && (forall a, b | a in mailboxes && b in mailboxes && mailboxes[a].Some? && mailboxes[a] == mailboxes[b] :: a == b)
    }

    /** `get_email_states`. */
    method GetEmailStates(ids: seq<EmailId>) returns (states: seq<EmailState>)
      ensures states == StatesOf(emails, ids)
    {
      var distinct := Dedup(ids);
      states := [];
      var i := 0;
      while i < |distinct|
        invariant 0 <= i <= |distinct|
        invariant states + Known(emails, distinct[i..]) == Known(emails, distinct)
      {
        assert distinct[i..][1..] == distinct[i + 1..];
        if distinct[i] in emails {
          states := states + [StateOf(emails, distinct[i])];
        }
        i := i + 1;
      }
      assert states + [] == states;
    }

    /** `set_mailboxes_patch`: messages whose update would be empty are not sent, and an
        unknown or refused message that was sent is reported after the others have been
        changed. */
    method SetMailboxesPatch(patches: map<EmailId, Patch>, rider: Rider) returns (ok: bool)
      modifies `emails
      ensures emails == Except(old(emails), SetPatches(old(emails), patches, rider), refusing)
      ensures ok <==> forall id | id in patches && (patches[id].Keys != {} || rider.Rider?) :: id in emails && id !in refusing
    {
      var update := map id | id in patches && (patches[id].Keys != {} || rider.Rider?) :: patches[id];
      ok := forall id | id in update :: id in emails && id !in refusing;
      emails := map id | id in emails ::
        if id in update && id !in refusing then
          emails[id].(mailboxes := Patched(emails[id].mailboxes, update[id]),
                      keywords := Ridden(emails[id].keywords, rider))
        else emails[id];
      forall id | id in old(emails) && id in patches && id !in update
        ensures Patched(old(emails)[id].mailboxes, patches[id]) == old(emails)[id].mailboxes
      {
        assert patches[id].Keys == {};
        assert forall m :: m !in patches[id];
      }
    }

    method SetKeywords(ids: seq<EmailId>, keyword: Keyword, on: bool) returns (ok: bool)
      modifies `emails
      ensures emails == Except(old(emails), SetKeyword(old(emails), ids, keyword, on), refusing)
      ensures ok <==> forall id | id in ids :: id in emails && id !in refusing
    {
      emails := Except(emails, SetKeyword(emails, ids, keyword, on), refusing);
      ok := forall id | id in ids :: id in emails && id !in refusing;
    }

    method DestroyEmails(ids: seq<EmailId>)
      modifies `emails, `listing
      ensures emails == Destroyed(old(emails), ids)
      ensures listing == Without(old(listing), ids)
    {
      emails := Destroyed(emails, ids);
      listing := Without(listing, ids);
    }

    function MailboxFor(role: Role): (r: Option<MailboxId>)
      requires Valid()
      reads `mailboxes, `parents, `nextMailbox
      ensures r.Some? ==> r.value in mailboxes && mailboxes[r.value] == Some(role)
      ensures r.None? ==> forall id | id in mailboxes :: mailboxes[id] != Some(role)
    {
      var found := set id | id in mailboxes && mailboxes[id] == Some(role);
      if found == {} then
        assert forall id | id in mailboxes :: mailboxes[id] == Some(role) ==> id in found;
        None
      else
        var id :| id in found;
        Some(id)
    }

    /** Refused when the role is taken (section 2 of RFC 8621) or the account is full. */
    method CreateMailbox(role: Role) returns (r: Option<MailboxId>)
      requires Valid()
      modifies `mailboxes, `nextMailbox
      ensures Valid()
      ensures r.None? <==> !accepting || old(MailboxFor(role)).Some?
      ensures r.None? ==> mailboxes == old(mailboxes)
      ensures r.Some? ==> r.value !in old(mailboxes) && mailboxes == old(mailboxes)[r.value := Some(role)]
    {
      if !accepting || MailboxFor(role).Some? {
        return None;
      }
      r := Some(nextMailbox);
      mailboxes := mailboxes[nextMailbox := Some(role)];
      nextMailbox := nextMailbox + 1;
    }

    /** The mailboxes directly under another: the labels, or the ones with a role. */
    function Nested(id: MailboxId, labels: bool): set<MailboxId>
      requires Valid()
      reads `mailboxes, `parents, `nextMailbox
    {
      NestedIn(mailboxes, parents, id, labels)
    }

    /** `destroy_mailbox` without removing mail: refused while any message is in it, or any
        mailbox under it (section 2.5 of RFC 8621). */
    method DestroyMailbox(id: MailboxId) returns (ok: bool)
      requires Valid()
      modifies `mailboxes, `parents
      ensures Valid()
      ensures ok <==> (forall e | e in emails :: id !in emails[e].mailboxes) && old(Nested(id, true) + Nested(id, false)) == {}
      ensures mailboxes == if ok then old(mailboxes) - {id} else old(mailboxes)
      ensures parents == if ok then old(parents) - {id} else old(parents)
    {
      var empty := forall e | e in emails :: id !in emails[e].mailboxes;
      ok := empty && Nested(id, true) == {} && Nested(id, false) == {};
      if ok {
        mailboxes := mailboxes - {id};
        parents := parents - {id};
      }
    }

    /** `ensure_role_mailbox` with nobody else at work: look, create, and look again only
        if the create was refused. */
    method EnsureRole(role: Role) returns (r: Option<MailboxId>)
      requires Valid()
      modifies `mailboxes, `nextMailbox
      ensures Valid()
      ensures r == MailboxFor(role)
      ensures old(MailboxFor(role)).Some? ==> r == old(MailboxFor(role)) && mailboxes == old(mailboxes)
      ensures r.None? <==> old(MailboxFor(role)).None? && !accepting
      ensures r.None? ==> mailboxes == old(mailboxes)
      ensures forall id | id in old(mailboxes) :: id in mailboxes && mailboxes[id] == old(mailboxes)[id]
    {
      r := MailboxFor(role);
      if r.Some? {
        return;
      }
      r := CreateMailbox(role);
      if r.None? {
        r := MailboxFor(role);
      } else {
        assert mailboxes[r.value] == Some(role);
      }
    }
  }
}
