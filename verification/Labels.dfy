/** Loops that page a mailbox empty from the top: taking a label off everything that
    carries it, deleting the label, and emptying Trash or Spam. */
module Labels {
  import opened Wrappers
  import opened MailStore
  import opened Actions
  import opened Queries

  const DRAIN_PASSES: nat := 40
  const DRAIN_PAGE: nat := 100
  const EMPTY_PAGE: nat := 200

  function In(mailbox: MailboxId): Criteria {
    Criteria(Some(mailbox), {}, None)
  }

  /** The conversations with a message in the mailbox. */
  function Carrying(emails: Emails, mailbox: MailboxId): set<ThreadId> {
    MatchingThreads(emails, In(mailbox))
  }

  function Min(a: nat, b: nat): nat {
    if a < b then a else b
  }

  // ------------------------------------------------------------------- one page

  /** The first page of a mailbox: as many of its conversations as fit. */
  lemma FirstPage(emails: Emails, listing: seq<EmailId>, mailbox: MailboxId, limit: nat)
    requires IsListing(emails, listing)
    ensures
      var page := PageOf(emails, listing, In(mailbox), 0, limit);
      && Distinct(page.threadOrder)
      && SetOf(page.threadOrder) <= Carrying(emails, mailbox)
      && |page.threadOrder| == |SetOf(page.threadOrder)| == Min(limit, |Carrying(emails, mailbox)|)
      && forall t | t in page.threadOrder :: t in page.members && page.members[t] == Members(emails, listing, t)
  {
    hide Representatives, Members, IsListing, NewestFirst, Represented;
    var q := In(mailbox);
    RepresentativesAre(emails, listing, q);
    var threads := Queries.ThreadsOf(emails, Representatives(emails, listing, q));
    var order := Slice(threads, 0, limit);
    assert forall t | t in order :: t in threads;
    DistinctCount(order, SetOf(order));
  }

  function Filtered(emails: Emails, ids: seq<EmailId>, mailbox: MailboxId): (r: seq<EmailId>)
    ensures forall id :: id in r <==> id in ids && id in emails && mailbox in emails[id].mailboxes
  {
    if ids == [] then []
    else
      assert ids == [ids[0]] + ids[1..];
      (if ids[0] in emails && mailbox in emails[ids[0]].mailboxes then [ids[0]] else []) + Filtered(emails, ids[1..], mailbox)
  }

  lemma {:induction false} FilteredDistinct(emails: Emails, ids: seq<EmailId>, mailbox: MailboxId)
    requires Distinct(ids)
    ensures Distinct(Filtered(emails, ids, mailbox))
  {
    if ids != [] {
      RestDistinct(ids);
      FilteredDistinct(emails, ids[1..], mailbox);
    }
  }

  lemma {:induction false} MembersDistinct(emails: Emails, listing: seq<EmailId>, thread: ThreadId)
    requires Distinct(listing) && forall id | id in listing :: id in emails
    ensures Distinct(Members(emails, listing, thread))
  {
    if listing != [] {
      RestDistinct(listing);
      MembersDistinct(emails, listing[1..], thread);
    }
  }

  /** `for thread in page ... for header in thread if mailbox in header.mailbox_ids`. */
  method Collect(server: Server, page: QueryPage, mailbox: MailboxId) returns (ids: seq<EmailId>)
    requires IsListing(server.emails, server.listing) && Distinct(page.threadOrder)
    requires forall t | t in page.threadOrder :: t in page.members && page.members[t] == Members(server.emails, server.listing, t)
    ensures Distinct(ids)
    ensures forall id :: id in ids <==> id in server.emails && mailbox in server.emails[id].mailboxes && server.emails[id].thread in page.threadOrder
  {
    hide Members, Filtered;
    ids := [];
    for i := 0 to |page.threadOrder|
      invariant Distinct(ids)
      invariant forall id :: id in ids <==>
        id in server.emails && mailbox in server.emails[id].mailboxes && server.emails[id].thread in page.threadOrder[..i]
    {
      var thread := page.threadOrder[i];
      var here := Filtered(server.emails, page.members[thread], mailbox);
      MembersDistinct(server.emails, server.listing, thread);
      FilteredDistinct(server.emails, page.members[thread], mailbox);
      assert thread !in page.threadOrder[..i];
      DistinctJoin(ids, here);
      assert page.threadOrder[..i + 1] == page.threadOrder[..i] + [thread];
      ids := ids + here;
    }
    assert page.threadOrder[..|page.threadOrder|] == page.threadOrder;
  }

  // ------------------------------------------------------------------- draining

  /** Off with the label: into Archive if that leaves nothing. */
  function Drained(e: Email, mailbox: MailboxId, archive: MailboxId): Email {
    if mailbox !in e.mailboxes then e
    else if e.mailboxes == {mailbox} then e.(mailboxes := {archive})
    else e.(mailboxes := e.mailboxes - {mailbox})
  }

  /** The store with these conversations drained. */
  ghost function DrainedIn(emails: Emails, mailbox: MailboxId, archive: MailboxId, threads: set<ThreadId>): (r: Emails)
    ensures r.Keys == emails.Keys
  {
    map id | id in emails :: if emails[id].thread in threads then Drained(emails[id], mailbox, archive) else emails[id]
  }

  ghost function Homeless(emails: Emails, mailbox: MailboxId, threads: set<ThreadId>): set<EmailId> {
    set id | id in emails && emails[id].thread in threads && emails[id].mailboxes == {mailbox}
  }

  ghost function Housed(emails: Emails, mailbox: MailboxId, threads: set<ThreadId>): set<EmailId> {
    set id | id in emails && emails[id].thread in threads && mailbox in emails[id].mailboxes && emails[id].mailboxes != {mailbox}
  }

  lemma DrainedMore(emails: Emails, mailbox: MailboxId, archive: MailboxId, some: set<ThreadId>, more: set<ThreadId>)
    requires archive != mailbox
    ensures DrainedIn(DrainedIn(emails, mailbox, archive, some), mailbox, archive, more) == DrainedIn(emails, mailbox, archive, some + more)
  {
  }

  /** Draining some conversations takes exactly them out of the label. */
  lemma DrainedCarrying(emails: Emails, mailbox: MailboxId, archive: MailboxId, threads: set<ThreadId>)
    requires archive != mailbox
    ensures Carrying(DrainedIn(emails, mailbox, archive, threads), mailbox) == Carrying(emails, mailbox) - threads
  {
    var now := DrainedIn(emails, mailbox, archive, threads);
    forall t ensures t in Carrying(now, mailbox) <==> t in Carrying(emails, mailbox) - threads {
      if t in Carrying(now, mailbox) {
        var id :| id in now && Meets(now[id], In(mailbox)) && now[id].thread == t;
        assert id in emails && Meets(emails[id], In(mailbox)) && emails[id].thread == t;
      }
      if t in Carrying(emails, mailbox) - threads {
        var id :| id in emails && Meets(emails[id], In(mailbox)) && emails[id].thread == t;
        assert id in now && Meets(now[id], In(mailbox)) && now[id].thread == t;
      }
    }
  }

  /** What the conversations drained later look like now is what they always did. */
  lemma DrainedLater(emails: Emails, mailbox: MailboxId, archive: MailboxId, some: set<ThreadId>, more: set<ThreadId>)
    requires forall t | t in more :: t !in some
    ensures Homeless(DrainedIn(emails, mailbox, archive, some), mailbox, more) == Homeless(emails, mailbox, more)
    ensures Housed(DrainedIn(emails, mailbox, archive, some), mailbox, more) == Housed(emails, mailbox, more)
  {
    var now := DrainedIn(emails, mailbox, archive, some);
    forall id | id in emails && emails[id].thread in more ensures now[id] == emails[id] {
    }
    assert forall id | id in now :: now[id].thread == emails[id].thread;
    assert forall id :: id in Homeless(now, mailbox, more) <==> id in Homeless(emails, mailbox, more);
    assert forall id :: id in Housed(now, mailbox, more) <==> id in Housed(emails, mailbox, more);
  }

  lemma CountsAdd(emails: Emails, mailbox: MailboxId, some: set<ThreadId>, more: set<ThreadId>)
    requires forall t | t in more :: t !in some
    ensures |Homeless(emails, mailbox, some + more)| == |Homeless(emails, mailbox, some)| + |Homeless(emails, mailbox, more)|
    ensures |Housed(emails, mailbox, some + more)| == |Housed(emails, mailbox, some)| + |Housed(emails, mailbox, more)|
  {
    DisjointSizes(Homeless(emails, mailbox, some), Homeless(emails, mailbox, more), Homeless(emails, mailbox, some + more));
    DisjointSizes(Housed(emails, mailbox, some), Housed(emails, mailbox, more), Housed(emails, mailbox, some + more));
  }

  lemma DisjointSizes(a: set<EmailId>, b: set<EmailId>, both: set<EmailId>)
    requires forall x | x in b :: x !in a
    requires forall x :: x in both <==> x in a || x in b
    ensures |both| == |a| + |b|
  {
    assert both == a + b;
    assert a * b == {};
  }

  /** With nothing homeless in them, which mailbox Archive is makes no difference. */
  lemma ArchiveFree(emails: Emails, mailbox: MailboxId, a: MailboxId, b: MailboxId, threads: set<ThreadId>)
    requires Homeless(emails, mailbox, threads) == {}
    ensures DrainedIn(emails, mailbox, a, threads) == DrainedIn(emails, mailbox, b, threads)
  {
    forall id | id in emails && emails[id].thread in threads ensures emails[id].mailboxes != {mailbox} {
      assert id !in Homeless(emails, mailbox, threads);
    }
  }

  function DrainPatch(e: Email, mailbox: MailboxId, archive: MailboxId): Patch {
    if e.mailboxes == {mailbox} then map[mailbox := false, archive := true] else map[mailbox := false]
  }

  lemma DrainPatched(e: Email, mailbox: MailboxId, archive: MailboxId)
    requires mailbox in e.mailboxes && archive != mailbox
    ensures Patched(e.mailboxes, DrainPatch(e, mailbox, archive)) == Drained(e, mailbox, archive).mailboxes
  {
  }

  function CountHomeless(emails: Emails, mailbox: MailboxId, ids: seq<EmailId>): (n: nat)
    requires forall id | id in ids :: id in emails
  {
    if ids == [] then 0
    else
      assert ids == ids[..|ids| - 1] + [ids[|ids| - 1]];
      CountHomeless(emails, mailbox, ids[..|ids| - 1]) + if emails[ids[|ids| - 1]].mailboxes == {mailbox} then 1 else 0
  }

  lemma {:induction false} CountIs(emails: Emails, mailbox: MailboxId, ids: seq<EmailId>, homeless: set<EmailId>)
    requires Distinct(ids) && forall id | id in ids :: id in emails
    requires forall id :: id in homeless <==> id in ids && emails[id].mailboxes == {mailbox}
    ensures CountHomeless(emails, mailbox, ids) == |homeless|
  {
    if ids == [] {
      assert homeless == {};
    } else {
      var front, last := ids[..|ids| - 1], ids[|ids| - 1];
      assert ids == front + [last] && last !in front;
      CountIs(emails, mailbox, front, homeless - {last});
    }
  }

  lemma CountsAre(emails: Emails, mailbox: MailboxId, ids: seq<EmailId>, threads: set<ThreadId>)
    requires Distinct(ids)
    requires forall id :: id in ids <==> id in emails && mailbox in emails[id].mailboxes && emails[id].thread in threads
    ensures CountHomeless(emails, mailbox, ids) == |Homeless(emails, mailbox, threads)|
    ensures |ids| == |Homeless(emails, mailbox, threads)| + |Housed(emails, mailbox, threads)|
  {
    var homeless, housed := Homeless(emails, mailbox, threads), Housed(emails, mailbox, threads);
    CountIs(emails, mailbox, ids, homeless);
    DistinctCount(ids, homeless + housed);
    DisjointSizes(homeless, housed, homeless + housed);
  }

  /** The server refuses no message of these conversations that carries the label. */
  ghost predicate Accepted(emails: Emails, mailbox: MailboxId, threads: set<ThreadId>, refusing: set<EmailId>) {
    forall id | id in emails && mailbox in emails[id].mailboxes && emails[id].thread in threads :: id !in refusing
  }

  lemma AcceptedDrains(emails: Emails, mailbox: MailboxId, archive: MailboxId, threads: set<ThreadId>, refusing: set<EmailId>)
    requires Accepted(emails, mailbox, threads, refusing)
    ensures Except(emails, DrainedIn(emails, mailbox, archive, threads), refusing) == DrainedIn(emails, mailbox, archive, threads)
  {
    ExceptNothing(emails, DrainedIn(emails, mailbox, archive, threads), refusing);
  }

  /** The body of a pass: one patch for every message collected, and the two counts. */
  method PatchAll(server: Server, mailbox: MailboxId, archive: MailboxId, ids: seq<EmailId>, ghost threads: set<ThreadId>) returns (unlabelled: nat, archived: nat, ok: bool)
    requires archive != mailbox && Distinct(ids)
    requires forall id :: id in ids <==> id in server.emails && mailbox in server.emails[id].mailboxes && server.emails[id].thread in threads
    modifies server`emails
    ensures server.emails == Except(old(server.emails), DrainedIn(old(server.emails), mailbox, archive, threads), server.refusing)
    ensures ok <==> Accepted(old(server.emails), mailbox, threads, server.refusing)
    ensures unlabelled == |Housed(old(server.emails), mailbox, threads)|
    ensures archived == |Homeless(old(server.emails), mailbox, threads)|
  {
    hide DrainPatch, DrainedIn, Homeless, Housed, Except, PatchedSoFar, CountHomeless;
    NoPatchYet(server.emails, mailbox, archive);
    var patches: map<EmailId, Patch> := map[];
    unlabelled, archived := 0, 0;
    for i := 0 to |ids|
      invariant server.emails == old(server.emails)
      invariant PatchedSoFar(server.emails, mailbox, archive, ids[..i], patches, archived) && archived + unlabelled == i
    {
      assert ids[i] in ids && ids[..i + 1] == ids[..i] + [ids[i]];
      OneMorePatch(server.emails, mailbox, archive, ids[..i], ids[i], patches, archived);
      var e := server.emails[ids[i]];
      if e.mailboxes == {mailbox} {
        archived := archived + 1;
      } else {
        unlabelled := unlabelled + 1;
      }
      patches := patches[ids[i] := DrainPatch(e, mailbox, archive)];
    }
    assert ids[..|ids|] == ids;
    CountsAre(server.emails, mailbox, ids, threads);
    PatchedAll(server.emails, mailbox, archive, ids, patches, archived);
    PatchesDrain(server.emails, mailbox, archive, ids, threads, patches);
    ok := server.SetMailboxesPatch(patches, NoRider);
  }

  /** A patch for each of these messages, and the homeless among them counted. */
  ghost predicate PatchedSoFar(emails: Emails, mailbox: MailboxId, archive: MailboxId, some: seq<EmailId>, patches: map<EmailId, Patch>, archived: nat) {
    && (forall id | id in some :: id in emails)
    && (forall id :: id in patches <==> id in some)
    && (forall id | id in patches :: patches[id] == DrainPatch(emails[id], mailbox, archive))
    && archived == CountHomeless(emails, mailbox, some)
  }

  lemma NoPatchYet(emails: Emails, mailbox: MailboxId, archive: MailboxId)
    ensures PatchedSoFar(emails, mailbox, archive, [], map[], 0)
  {
  }

  lemma OneMorePatch(emails: Emails, mailbox: MailboxId, archive: MailboxId, some: seq<EmailId>, id: EmailId, patches: map<EmailId, Patch>, archived: nat)
    requires PatchedSoFar(emails, mailbox, archive, some, patches, archived) && id in emails
    ensures
      PatchedSoFar(emails, mailbox, archive, some + [id], patches[id := DrainPatch(emails[id], mailbox, archive)],
                   if emails[id].mailboxes == {mailbox} then archived + 1 else archived)
  {
    hide DrainPatch;
    assert (some + [id])[..|some|] == some;
  }

  lemma PatchedAll(emails: Emails, mailbox: MailboxId, archive: MailboxId, ids: seq<EmailId>, patches: map<EmailId, Patch>, archived: nat)
    requires PatchedSoFar(emails, mailbox, archive, ids, patches, archived)
    ensures forall id | id in ids :: id in emails
    ensures forall id :: id in patches <==> id in ids
    ensures forall id | id in patches :: patches[id] == DrainPatch(emails[id], mailbox, archive)
    ensures archived == CountHomeless(emails, mailbox, ids)
  {
  }

  lemma PatchesDrain(emails: Emails, mailbox: MailboxId, archive: MailboxId, ids: seq<EmailId>, threads: set<ThreadId>, patches: map<EmailId, Patch>)
    requires archive != mailbox
    requires forall id :: id in ids <==> id in emails && mailbox in emails[id].mailboxes && emails[id].thread in threads
    requires forall id :: id in patches <==> id in ids
    requires forall id | id in patches :: patches[id] == DrainPatch(emails[id], mailbox, archive)
    ensures SetPatches(emails, patches, NoRider) == DrainedIn(emails, mailbox, archive, threads)
    ensures forall id | id in patches :: patches[id].Keys != {} && id in emails
  {
    assert forall id | id in patches :: mailbox in DrainPatch(emails[id], mailbox, archive);
    forall id | id in emails ensures SetPatches(emails, patches, NoRider)[id] == DrainedIn(emails, mailbox, archive, threads)[id] {
      if id in ids {
        DrainPatched(emails[id], mailbox, archive);
      }
    }
  }

  /** Part of the way through a drain: some conversations drained, the rest as they were,
      and every message drained counted once. */
  ghost predicate Progress(was: Emails, now: Emails, mailbox: MailboxId, archive: MailboxId, threads: set<ThreadId>, unlabelled: nat, archived: nat) {
    && archive != mailbox
    && threads <= Carrying(was, mailbox)
    && now == DrainedIn(was, mailbox, archive, threads)
    && unlabelled == |Housed(was, mailbox, threads)|
    && archived == |Homeless(was, mailbox, threads)|
  }

  lemma NoProgress(was: Emails, mailbox: MailboxId, archive: MailboxId)
    requires archive != mailbox
    ensures Progress(was, was, mailbox, archive, {}, 0, 0)
  {
    assert Housed(was, mailbox, {}) == {} && Homeless(was, mailbox, {}) == {};
  }

  lemma MoreProgress(was: Emails, now: Emails, later: Emails, mailbox: MailboxId, archive: MailboxId, threads: set<ThreadId>, unlabelled: nat, archived: nat, taken: set<ThreadId>)
    requires Progress(was, now, mailbox, archive, threads, unlabelled, archived)
    requires taken <= Carrying(now, mailbox) && later == DrainedIn(now, mailbox, archive, taken)
    ensures Progress(was, later, mailbox, archive, threads + taken,
                     unlabelled + |Housed(now, mailbox, taken)|, archived + |Homeless(now, mailbox, taken)|)
    ensures |threads + taken| == |threads| + |taken|
  {
    hide DrainedIn, Housed, Homeless, Carrying;
    DrainedCarrying(was, mailbox, archive, threads);
    DrainedMore(was, mailbox, archive, threads, taken);
    DrainedLater(was, mailbox, archive, threads, taken);
    CountsAdd(was, mailbox, threads, taken);
    assert threads * taken == {};
  }

  lemma ProgressIs(was: Emails, now: Emails, mailbox: MailboxId, archive: MailboxId, threads: set<ThreadId>, unlabelled: nat, archived: nat)
    requires Progress(was, now, mailbox, archive, threads, unlabelled, archived)
    ensures archive != mailbox && threads <= Carrying(was, mailbox) && now == DrainedIn(was, mailbox, archive, threads)
    ensures unlabelled == |Housed(was, mailbox, threads)| && archived == |Homeless(was, mailbox, threads)|
    ensures |threads| == |Carrying(was, mailbox)| ==> threads == Carrying(was, mailbox)
  {
    var all := Carrying(was, mailbox);
    if |threads| == |all| {
      assert |all - threads| == 0;
      assert all == threads + (all - threads);
    }
  }

  /** Until a message needs Archive, it may be any mailbox. */
  lemma ProgressAnyArchive(was: Emails, now: Emails, mailbox: MailboxId, archive: MailboxId, other: MailboxId, threads: set<ThreadId>, unlabelled: nat)
    requires Progress(was, now, mailbox, archive, threads, unlabelled, 0) && other != mailbox
    ensures Progress(was, now, mailbox, other, threads, unlabelled, 0)
  {
    ArchiveFree(was, mailbox, archive, other, threads);
  }

  lemma Left(was: Emails, now: Emails, mailbox: MailboxId, archive: MailboxId, threads: set<ThreadId>, unlabelled: nat, archived: nat)
    requires Progress(was, now, mailbox, archive, threads, unlabelled, archived)
    ensures |Carrying(now, mailbox)| == |Carrying(was, mailbox)| - |threads|
  {
    hide DrainedIn, Housed, Homeless, Carrying;
    DrainedCarrying(was, mailbox, archive, threads);
    var all := Carrying(was, mailbox);
    assert (all - threads) + threads == all;
  }

  lemma StillHomeless(was: Emails, now: Emails, mailbox: MailboxId, archive: MailboxId, threads: set<ThreadId>, unlabelled: nat, archived: nat)
    requires Progress(was, now, mailbox, archive, threads, unlabelled, archived)
    ensures AnyHomeless(now, mailbox) ==> AnyHomeless(was, mailbox)
  {
    hide Carrying, Housed, Homeless;
    if id :| id in now && now[id].mailboxes == {mailbox} {
      assert was[id].mailboxes == {mailbox};
    }
  }

  lemma DrainedListing(emails: Emails, listing: seq<EmailId>, mailbox: MailboxId, archive: MailboxId, threads: set<ThreadId>)
    requires IsListing(emails, listing)
    ensures IsListing(DrainedIn(emails, mailbox, archive, threads), listing)
  {
    hide IsListing;
    ListingKept(emails, DrainedIn(emails, mailbox, archive, threads), listing);
  }

  lemma ExceptListing(emails: Emails, listing: seq<EmailId>, mailbox: MailboxId, archive: MailboxId, threads: set<ThreadId>, refusing: set<EmailId>)
    requires IsListing(emails, listing)
    ensures IsListing(Except(emails, DrainedIn(emails, mailbox, archive, threads), refusing), listing)
  {
    hide IsListing;
    ListingKept(emails, Except(emails, DrainedIn(emails, mailbox, archive, threads), refusing), listing);
  }

  /** When a page has a conversation, it has a message to show for it. */
  lemma NothingCollected(emails: Emails, mailbox: MailboxId, threads: set<ThreadId>)
    requires threads <= Carrying(emails, mailbox)
    requires forall id | id in emails && mailbox in emails[id].mailboxes :: emails[id].thread !in threads
    ensures threads == {}
  {
    forall t | t in Carrying(emails, mailbox) ensures t !in threads {
      var id :| id in emails && Meets(emails[id], In(mailbox)) && emails[id].thread == t;
    }
  }

  lemma NoneNeedsArchive(emails: Emails, mailbox: MailboxId, ids: seq<EmailId>, threads: set<ThreadId>)
    requires forall id | id in ids :: id in emails && emails[id].mailboxes != {mailbox}
    requires forall id :: id in emails && mailbox in emails[id].mailboxes && emails[id].thread in threads ==> id in ids
    ensures Homeless(emails, mailbox, threads) == {}
  {
    forall id ensures id !in Homeless(emails, mailbox, threads) {
    }
  }

  /** Which Archive a drain used, if it used one. */
  ghost predicate ArchiveIs(server: Server, nav: Nav, archiveId: Option<MailboxId>)
    requires server.Valid()
    reads server`mailboxes, server`parents, server`nextMailbox
  {
    archiveId.Some? ==>
      if Archive in nav.ids then archiveId == Some(nav.ids[Archive]) else server.MailboxFor(Archive) == archiveId
  }

  lemma ArchiveAtFirst(server: Server, nav: Nav)
    requires server.Valid()
    ensures ArchiveIs(server, nav, nav.Resolve(Archive))
  {
  }

  ghost predicate AnyHomeless(emails: Emails, mailbox: MailboxId) {
    exists id | id in emails :: emails[id].mailboxes == {mailbox}
  }

  /** The first page of a mailbox, and every message of its conversations that is in it. */
  method NextPage(server: Server, mailbox: MailboxId, limit: nat) returns (ids: seq<EmailId>, conversations: nat, ghost taken: set<ThreadId>)
    requires IsListing(server.emails, server.listing) && limit > 0
    ensures Distinct(ids)
    ensures forall id :: id in ids <==> id in server.emails && mailbox in server.emails[id].mailboxes && server.emails[id].thread in taken
    ensures taken <= Carrying(server.emails, mailbox)
    ensures |taken| == conversations == Min(limit, |Carrying(server.emails, mailbox)|)
    ensures ids == [] <==> taken == {}
  {
    hide IsListing, Carrying, PageOf, Members;
    var page := Query(server, In(mailbox), 0, limit);
    FirstPage(server.emails, server.listing, mailbox, limit);
    ids := Collect(server, page, mailbox);
    conversations := |page.threadOrder|;
    taken := SetOf(page.threadOrder);
    if ids == [] {
      NothingCollected(server.emails, mailbox, taken);
    } else {
      assert server.emails[ids[0]].thread in taken;
    }
  }

  /** Archive is resolved, and created if there is none, only when a message needs it. */
  method ArchiveFor(server: Server, nav: Nav, mailbox: MailboxId, archiveId: Option<MailboxId>, ids: seq<EmailId>) returns (found: Option<MailboxId>, ok: bool)
    requires server.Valid() && (forall id | id in ids :: id in server.emails)
    requires mailbox in server.mailboxes && server.mailboxes[mailbox].None?
    requires ArchiveIs(server, nav, archiveId) && archiveId != Some(mailbox)
    requires archiveId.None? ==> Archive !in nav.ids
    modifies server`mailboxes, server`nextMailbox
    ensures server.Valid()
    ensures ArchiveIs(server, nav, found) && found != Some(mailbox)
    ensures archiveId.Some? ==> ok && found == archiveId
    ensures ok && found.None? ==> forall id | id in ids :: server.emails[id].mailboxes != {mailbox}
    ensures !ok ==> found.None? && !server.accepting && old(server.MailboxFor(Archive)).None?
    ensures found.None? ==> Archive !in nav.ids
    ensures server.mailboxes != old(server.mailboxes) ==> Archive !in nav.ids && AnyHomeless(server.emails, mailbox)
    ensures found.None? ==> server.mailboxes == old(server.mailboxes)
    ensures MailboxesKept(old(server.mailboxes), server.mailboxes)
  {
    found, ok := archiveId, true;
    if archiveId.None? && exists id | id in ids :: server.emails[id].mailboxes == {mailbox} {
      found := server.EnsureRole(Archive);
      ok := found.Some?;
      if found.Some? {
        assert server.mailboxes[found.value] == Some(Archive);
      }
    }
  }

  predicate MailboxesKept(before: map<MailboxId, Option<Role>>, after: map<MailboxId, Option<Role>>) {
    forall id | id in before :: id in after && after[id] == before[id]
  }

  /** How one pass ended: with the label found empty, with Archive refused, with some of the
      page's messages refused, or with a page of conversations drained. */
  datatype Pass = Empty | Refused | Blocked | Took(archiveId: Option<MailboxId>, unlabelled: nat, archived: nat)

  method DrainPass(server: Server, nav: Nav, mailbox: MailboxId, archiveId: Option<MailboxId>) returns (pass: Pass, ghost archive: MailboxId, ghost taken: set<ThreadId>)
    requires server.Valid() && IsListing(server.emails, server.listing)
    requires mailbox in server.mailboxes && server.mailboxes[mailbox].None?
    requires ArchiveIs(server, nav, archiveId) && archiveId != Some(mailbox)
    requires archiveId.None? ==> Archive !in nav.ids
    modifies server`emails, server`mailboxes, server`nextMailbox
    ensures server.Valid() && IsListing(server.emails, server.listing)
    ensures pass == Empty <==> Carrying(old(server.emails), mailbox) == {}
    ensures pass == Empty || pass == Refused ==>
              server.emails == old(server.emails) && server.mailboxes == old(server.mailboxes) && ArchiveIs(server, nav, archiveId)
    ensures pass == Refused ==> !server.accepting && Archive !in nav.ids && old(server.MailboxFor(Archive)).None?
    ensures pass == Blocked ==>
              && taken <= Carrying(old(server.emails), mailbox)
              && archive != mailbox && (archiveId.Some? ==> archive == archiveId.value)
              && server.emails == Except(old(server.emails), DrainedIn(old(server.emails), mailbox, archive, taken), server.refusing)
              && !Accepted(old(server.emails), mailbox, taken, server.refusing)
    ensures pass.Took? ==>
              && Accepted(old(server.emails), mailbox, taken, server.refusing)
              && taken <= Carrying(old(server.emails), mailbox)
              && |taken| == Min(100, |Carrying(old(server.emails), mailbox)|)
              && archive != mailbox && (pass.archiveId.Some? ==> archive == pass.archiveId.value)
              && server.emails == DrainedIn(old(server.emails), mailbox, archive, taken)
              && pass.unlabelled == |Housed(old(server.emails), mailbox, taken)|
              && pass.archived == |Homeless(old(server.emails), mailbox, taken)|
              && ArchiveIs(server, nav, pass.archiveId) && pass.archiveId != Some(mailbox)
              && (archiveId.Some? ==> pass.archiveId == archiveId)
              && (pass.archiveId.None? ==> pass.archived == 0 && Archive !in nav.ids && server.mailboxes == old(server.mailboxes))
    ensures server.mailboxes != old(server.mailboxes) ==> Archive !in nav.ids && AnyHomeless(old(server.emails), mailbox)
    ensures MailboxesKept(old(server.mailboxes), server.mailboxes)
  {
    hide IsListing, Carrying, Housed, Homeless, DrainedIn, AnyHomeless, Except, Accepted, Server.MailboxFor;
    archive := 0;
    ghost var was := server.emails;
    var ids, conversations;
    ids, conversations, taken := NextPage(server, mailbox, DRAIN_PAGE);
    if ids == [] {
      return Empty, archive, taken;
    }
    var found, ok := ArchiveFor(server, nav, mailbox, archiveId, ids);
    if !ok {
      return Refused, archive, taken;
    }
    // With no Archive yet, no message on this page needs one.
    if found.None? {
      NoneNeedsArchive(server.emails, mailbox, ids, taken);
    }
    var target := if found.Some? then found.value else mailbox + 1;
    archive := target;
    DrainedListing(server.emails, server.listing, mailbox, target, taken);
    ExceptListing(server.emails, server.listing, mailbox, target, taken, server.refusing);
    var unlabelled, archived, accepted := PatchAll(server, mailbox, target, ids, taken);
    if !accepted {
      return Blocked, archive, taken;
    }
    AcceptedDrains(was, mailbox, target, taken, server.refusing);
    pass := Took(found, unlabelled, archived);
  }

  lemma NothingAsked(emails: Emails, mailbox: MailboxId, refusing: set<EmailId>)
    ensures Accepted(emails, mailbox, {}, refusing)
  {
  }

  /** The conversations of a page are as they were when the drain began. */
  lemma AcceptedMore(was: Emails, now: Emails, mailbox: MailboxId, archive: MailboxId, threads: set<ThreadId>, taken: set<ThreadId>, unlabelled: nat, archived: nat, refusing: set<EmailId>)
    requires Progress(was, now, mailbox, archive, threads, unlabelled, archived)
    requires Accepted(was, mailbox, threads, refusing) && taken <= Carrying(now, mailbox)
    ensures Accepted(was, mailbox, threads + taken, refusing) <==> Accepted(now, mailbox, taken, refusing)
  {
    DrainedCarrying(was, mailbox, archive, threads);
    hide Carrying, Housed, Homeless;
    assert forall t | t in taken :: t !in threads;
    assert forall id | id in was && was[id].thread in taken :: now[id] == was[id];
    assert forall id | id in was :: now[id].thread == was[id].thread;
  }

  /** A pass the server did not take whole: all its messages but the refused are drained. */
  lemma BlockedEnds(was: Emails, now: Emails, later: Emails, mailbox: MailboxId, archive: MailboxId, threads: set<ThreadId>, taken: set<ThreadId>, unlabelled: nat, archived: nat, refusing: set<EmailId>)
    requires Progress(was, now, mailbox, archive, threads, unlabelled, archived)
    requires Accepted(was, mailbox, threads, refusing)
    requires taken <= Carrying(now, mailbox) && !Accepted(now, mailbox, taken, refusing)
    requires later == Except(now, DrainedIn(now, mailbox, archive, taken), refusing)
    ensures threads + taken <= Carrying(was, mailbox)
    ensures later == Except(was, DrainedIn(was, mailbox, archive, threads + taken), refusing)
    ensures !Accepted(was, mailbox, threads + taken, refusing)
  {
    AcceptedMore(was, now, mailbox, archive, threads, taken, unlabelled, archived, refusing);
    DrainedCarrying(was, mailbox, archive, threads);
    DrainedMore(was, mailbox, archive, threads, taken);
    hide Carrying, Housed, Homeless;
    forall id | id in was && id in refusing ensures later[id] == was[id] {
      assert now[id] == was[id];
    }
  }

  /** `_drain`. With no refusal by the server it ends well exactly when at most 3900
      conversations carry the label: the fortieth pass has to find it empty. However it
      ends, no message is lost, none is changed that did not carry it, and all that did, in
      the conversations it reached, are drained but for the refused. */
  method Drain(server: Server, nav: Nav, mailbox: MailboxId) returns (r: Result<(nat, nat), Failure>, ghost archive: MailboxId, ghost threads: set<ThreadId>)
    requires server.Valid() && IsListing(server.emails, server.listing)
    requires mailbox in server.mailboxes && server.mailboxes[mailbox].None?
    requires Archive in nav.ids ==> nav.ids[Archive] != mailbox
    modifies server`emails, server`mailboxes, server`nextMailbox
    ensures server.Valid() && IsListing(server.emails, server.listing)
    ensures archive != mailbox && threads <= Carrying(old(server.emails), mailbox)
    ensures server.emails == Except(old(server.emails), DrainedIn(old(server.emails), mailbox, archive, threads), server.refusing)
    ensures r != Err(NotUpdated) ==> server.emails == DrainedIn(old(server.emails), mailbox, archive, threads)
    ensures r == Err(NotUpdated) <==> !Accepted(old(server.emails), mailbox, threads, server.refusing)
    ensures r.Ok? ==> |Carrying(old(server.emails), mailbox)| <= 3900
    ensures r.Ok? ==> threads == Carrying(old(server.emails), mailbox)
    ensures r.Ok? ==> r.value == (|Housed(old(server.emails), mailbox, threads)|, |Homeless(old(server.emails), mailbox, threads)|)
    ensures r == Err(TooMuchMail) ==> |Carrying(old(server.emails), mailbox)| > 3900
    ensures r.Err? && r.error != TooMuchMail && r.error != NotUpdated ==>
              r.error == Rejected && !server.accepting && Archive !in nav.ids && old(server.MailboxFor(Archive)).None?
    ensures r.Ok? && r.value.1 > 0 ==> ArchiveIs(server, nav, Some(archive))
    ensures Archive in nav.ids || !AnyHomeless(old(server.emails), mailbox) ==> server.mailboxes == old(server.mailboxes)
    ensures MailboxesKept(old(server.mailboxes), server.mailboxes)
  {
    hide Progress, IsListing, Carrying, Housed, Homeless, DrainedIn, AnyHomeless, ArchiveIs, Except, Accepted, Server.Valid, Server.MailboxFor;
    ArchiveAtFirst(server, nav);
    ghost var was := server.emails;
    var archiveId: Option<MailboxId> := nav.Resolve(Archive);
    var unlabelled, archived := 0, 0;
    archive := if archiveId.Some? then archiveId.value else mailbox + 1;
    threads := {};
    NoProgress(was, mailbox, archive);
    NothingAsked(was, mailbox, server.refusing);
    for i := 0 to DRAIN_PASSES
      invariant server.Valid() && IsListing(server.emails, server.listing)
      invariant Progress(was, server.emails, mailbox, archive, threads, unlabelled, archived)
      invariant Accepted(was, mailbox, threads, server.refusing)
      invariant |threads| == Min(DRAIN_PAGE * i, |Carrying(was, mailbox)|)
      invariant i == 0 || |Carrying(was, mailbox)| > DRAIN_PAGE * (i - 1)
      invariant archive != mailbox && (archiveId.Some? ==> archive == archiveId.value)
      invariant archiveId.None? ==> archived == 0 && Archive !in nav.ids && server.mailboxes == old(server.mailboxes)
      invariant ArchiveIs(server, nav, archiveId)
      invariant server.mailboxes != old(server.mailboxes) ==> Archive !in nav.ids && AnyHomeless(was, mailbox)
      invariant MailboxesKept(old(server.mailboxes), server.mailboxes)
    {
      ghost var now := server.emails;
      Left(was, now, mailbox, archive, threads, unlabelled, archived);
      StillHomeless(was, now, mailbox, archive, threads, unlabelled, archived);
      ProgressIs(was, now, mailbox, archive, threads, unlabelled, archived);
      ghost var taken, target;
      var pass;
      pass, target, taken := DrainPass(server, nav, mailbox, archiveId);
      match pass {
        case Empty =>
          AcceptedDrains(was, mailbox, archive, threads, server.refusing);
          return Ok((unlabelled, archived)), archive, threads;
        case Refused =>
          AcceptedDrains(was, mailbox, archive, threads, server.refusing);
          return Err(Rejected), archive, threads;
        case Blocked =>
          if archiveId.None? {
            ProgressAnyArchive(was, now, mailbox, archive, target, threads, unlabelled);
          }
          BlockedEnds(was, now, server.emails, mailbox, target, threads, taken, unlabelled, archived, server.refusing);
          return Err(NotUpdated), target, threads + taken;
        case Took(found, u, a) =>
          if archiveId.None? {
            ProgressAnyArchive(was, now, mailbox, archive, target, threads, unlabelled);
          }
          MoreProgress(was, now, server.emails, mailbox, target, threads, unlabelled, archived, taken);
          AcceptedMore(was, now, mailbox, target, threads, taken, unlabelled, archived, server.refusing);
          archiveId, archive := found, target;
          unlabelled, archived := unlabelled + u, archived + a;
          threads := threads + taken;
      }
    }
    ProgressIs(was, server.emails, mailbox, archive, threads, unlabelled, archived);
    AcceptedDrains(was, mailbox, archive, threads, server.refusing);
    return Err(TooMuchMail), archive, threads;
  }

  /** Draining part of a label or all of it leaves every message filed. */
  lemma DrainStaysFiled(emails: Emails, mailbox: MailboxId, archive: MailboxId, threads: set<ThreadId>, refusing: set<EmailId>)
    requires AllFiled(emails)
    ensures AllFiled(Except(emails, DrainedIn(emails, mailbox, archive, threads), refusing))
  {
    forall id | id in emails ensures Drained(emails[id], mailbox, archive).mailboxes != {} {
      if mailbox in emails[id].mailboxes && emails[id].mailboxes != {mailbox} {
        var other :| other in emails[id].mailboxes && other != mailbox;
        assert other in emails[id].mailboxes - {mailbox};
      }
    }
  }

  ghost function CarriersOf(emails: Emails, mailbox: MailboxId): set<EmailId> {
    set id | id in emails && mailbox in emails[id].mailboxes
  }

  /** A whole drain: nothing carries the label, every message is where it was without it or
      in Archive alone, nothing else about it changed, and the two counts make up the
      number that carried it. */
  lemma DrainLeaves(emails: Emails, mailbox: MailboxId, archive: MailboxId)
    requires archive != mailbox
    ensures
      var all := Carrying(emails, mailbox);
      var now := DrainedIn(emails, mailbox, archive, all);
      && now.Keys == emails.Keys
      && (forall id | id in now ::
            && mailbox !in now[id].mailboxes
            && now[id].mailboxes == (if emails[id].mailboxes == {mailbox} then {archive} else emails[id].mailboxes - {mailbox})
            && now[id] == emails[id].(mailboxes := now[id].mailboxes))
      && |Housed(emails, mailbox, all)| + |Homeless(emails, mailbox, all)| == |CarriersOf(emails, mailbox)|
  {
    var all := Carrying(emails, mailbox);
    var now := DrainedIn(emails, mailbox, archive, all);
    CarryingHas(emails, mailbox);
    forall id | id in now ensures now[id].mailboxes == if emails[id].mailboxes == {mailbox} then {archive} else emails[id].mailboxes - {mailbox} {
    }
    DisjointSizes(Housed(emails, mailbox, all), Homeless(emails, mailbox, all), CarriersOf(emails, mailbox));
  }

  // ------------------------------------------------------------------- deleting

  /** The nav lists role mailboxes under their roles. */
  predicate NavOf(nav: Nav, mailboxes: map<MailboxId, Option<Role>>) {
    forall role | role in nav.ids && nav.ids[role] in mailboxes :: mailboxes[nav.ids[role]] == Some(role)
  }

  /** `delete_plan`: why a label cannot be deleted, as far as it can be told beforehand. */
  method DeletePlan(server: Server, mailbox: MailboxId) returns (refusal: Option<Failure>)
    requires server.Valid()
    ensures refusal == Some(Gone) <==> mailbox !in server.mailboxes
    ensures refusal == Some(SystemFolder) <==> mailbox in server.mailboxes && server.mailboxes[mailbox].Some?
    ensures refusal == Some(HasChildren) <==>
              mailbox in server.mailboxes && server.mailboxes[mailbox].None? && server.Nested(mailbox, true) != {}
    ensures refusal.Some? ==> refusal.value in {Gone, SystemFolder, HasChildren}
  {
    if mailbox !in server.mailboxes {
      return Some(Gone);
    }
    if server.mailboxes[mailbox].Some? {
      return Some(SystemFolder);
    }
    return if server.Nested(mailbox, true) != {} then Some(HasChildren) else None;
  }

  lemma RefusedCarrier(emails: Emails, mailbox: MailboxId, threads: set<ThreadId>, refusing: set<EmailId>)
    ensures !Accepted(emails, mailbox, threads, refusing) ==> exists id | id in CarriersOf(emails, mailbox) :: id in emails && id in refusing
  {
    if id :| id in emails && mailbox in emails[id].mailboxes && emails[id].thread in threads && id in refusing {
      assert id in CarriersOf(emails, mailbox);
    }
  }

  /** A new folder is nested under nothing. */
  lemma NestedKept(before: map<MailboxId, Option<Role>>, after: map<MailboxId, Option<Role>>, parents: map<MailboxId, MailboxId>, id: MailboxId)
    requires MailboxesKept(before, after) && forall m | m in parents :: m in before
    ensures forall m | m in parents :: m in after
    ensures NestedIn(before, parents, id, true) == NestedIn(after, parents, id, true)
    ensures NestedIn(before, parents, id, false) == NestedIn(after, parents, id, false)
  {
  }

  /** `delete_label`. It is refused before anything is touched, or it drains. Once the drain
      has ended well the destroy is refused exactly when a mailbox with a role is nested
      under the label, which `delete_plan`, looking for labels, does not see; and no message
      goes with the label. */
  method DeleteLabel(server: Server, nav: Nav, mailbox: MailboxId) returns (r: Result<(nat, nat), Failure>, ghost archive: MailboxId)
    requires server.Valid() && IsListing(server.emails, server.listing) && NavOf(nav, server.mailboxes)
    modifies server`emails, server`mailboxes, server`parents, server`nextMailbox
    ensures server.Valid() && IsListing(server.emails, server.listing)
    ensures r == Err(Gone) <==> mailbox !in old(server.mailboxes)
    ensures r == Err(SystemFolder) <==> mailbox in old(server.mailboxes) && old(server.mailboxes)[mailbox].Some?
    ensures r == Err(HasChildren) <==>
              mailbox in old(server.mailboxes) && old(server.mailboxes)[mailbox].None? && old(server.Nested(mailbox, true)) != {}
    ensures r.Err? && r.error in {Gone, SystemFolder, HasChildren} ==>
              server.emails == old(server.emails) && server.mailboxes == old(server.mailboxes)
    ensures r.Err? ==> r.error in {Gone, SystemFolder, HasChildren, TooMuchMail, Rejected, NotUpdated, StillNested}
    ensures r == Err(NotUpdated) ==>
              exists id | id in CarriersOf(old(server.emails), mailbox) :: id in server.refusing && server.emails[id] == old(server.emails)[id]
    ensures r == Err(TooMuchMail) ==> |Carrying(old(server.emails), mailbox)| > 3900
    ensures r == Err(Rejected) ==> !server.accepting && Archive !in nav.ids && old(server.MailboxFor(Archive)).None?
    ensures r.Err? ==> MailboxesKept(old(server.mailboxes), server.mailboxes) && server.parents == old(server.parents)
    ensures r.Ok? || r == Err(StillNested) ==>
              && |Carrying(old(server.emails), mailbox)| <= 3900
              && archive != mailbox
              && server.emails == DrainedIn(old(server.emails), mailbox, archive, Carrying(old(server.emails), mailbox))
              && (r.Ok? <==> old(server.Nested(mailbox, false)) == {})
    ensures r.Ok? ==>
              && mailbox !in server.mailboxes
              && (forall id | id in old(server.mailboxes) && id != mailbox :: id in server.mailboxes)
              && r.value.0 + r.value.1 == |CarriersOf(old(server.emails), mailbox)|
    ensures server.emails.Keys == old(server.emails.Keys)
  {
    hide IsListing, Carrying, Housed, Homeless, DrainedIn, CarriersOf, AnyHomeless, ArchiveIs;
    archive := 0;
    var refusal := DeletePlan(server, mailbox);
    if refusal.Some? {
      return Err(refusal.value), archive;
    }
    ghost var threads;
    var drained;
    ghost var was := server.emails;
    drained, archive, threads := Drain(server, nav, mailbox);
    if drained.Err? {
      RefusedCarrier(was, mailbox, threads, server.refusing);
      return Err(drained.error), archive;
    }
    DrainLeaves(was, mailbox, archive);
    NestedKept(old(server.mailboxes), server.mailboxes, server.parents, mailbox);
    var ok := server.DestroyMailbox(mailbox);
    if !ok {
      return Err(StillNested), archive;
    }
    return Ok(drained.value), archive;
  }

  /** That refusal comes about: an account whose Archive is nested under the label. The
      label's mail is gone from it and the label stays. */
  method NestedFolderBlocks(server: Server, nav: Nav, mailbox: MailboxId, folder: MailboxId) returns (r: Result<(nat, nat), Failure>)
    requires server.Valid() && IsListing(server.emails, server.listing) && NavOf(nav, server.mailboxes)
    requires mailbox in server.mailboxes && server.mailboxes[mailbox].None?
    requires folder in server.mailboxes && server.mailboxes[folder] == Some(Archive) && server.parents == map[folder := mailbox]
    requires |Carrying(server.emails, mailbox)| <= 3900 && server.refusing == {}
    modifies server`emails, server`mailboxes, server`parents, server`nextMailbox
    ensures r == Err(StillNested)
    ensures mailbox in server.mailboxes && forall id | id in server.emails :: mailbox !in server.emails[id].mailboxes
  {
    ghost var was := server.emails;
    ghost var archive;
    assert folder in server.Nested(mailbox, false) && server.Nested(mailbox, true) == {};
    r, archive := DeleteLabel(server, nav, mailbox);
    DrainLeaves(was, mailbox, archive);
  }

  // ------------------------------------------------------------------- emptying

  /** The store with the messages of these conversations that are in the mailbox gone. */
  ghost function EmptiedIn(emails: Emails, mailbox: MailboxId, threads: set<ThreadId>): Emails {
    map id | id in emails && !(mailbox in emails[id].mailboxes && emails[id].thread in threads) :: emails[id]
  }

  lemma EmptiedMore(emails: Emails, mailbox: MailboxId, some: set<ThreadId>, taken: set<ThreadId>, ids: seq<EmailId>)
    requires
      var now := EmptiedIn(emails, mailbox, some);
      forall id :: id in ids <==> id in now && mailbox in now[id].mailboxes && now[id].thread in taken
    ensures Destroyed(EmptiedIn(emails, mailbox, some), ids) == EmptiedIn(emails, mailbox, some + taken)
  {
  }

  lemma EmptiedCarrying(emails: Emails, mailbox: MailboxId, threads: set<ThreadId>)
    ensures Carrying(EmptiedIn(emails, mailbox, threads), mailbox) == Carrying(emails, mailbox) - threads
  {
    var now := EmptiedIn(emails, mailbox, threads);
    forall t ensures t in Carrying(now, mailbox) <==> t in Carrying(emails, mailbox) - threads {
      if t in Carrying(now, mailbox) {
        var id :| id in now && Meets(now[id], In(mailbox)) && now[id].thread == t;
        assert Meets(emails[id], In(mailbox));
      }
      if t in Carrying(emails, mailbox) - threads {
        var id :| id in emails && Meets(emails[id], In(mailbox)) && emails[id].thread == t;
        assert id in now && Meets(now[id], In(mailbox));
      }
    }
  }

  lemma CarryingHas(emails: Emails, mailbox: MailboxId)
    ensures forall id | id in emails && mailbox in emails[id].mailboxes :: emails[id].thread in Carrying(emails, mailbox)
  {
    forall id | id in emails && mailbox in emails[id].mailboxes ensures emails[id].thread in Carrying(emails, mailbox) {
      assert Meets(emails[id], In(mailbox));
    }
  }

  lemma EmptiedAll(emails: Emails, mailbox: MailboxId, threads: set<ThreadId>)
    requires Carrying(EmptiedIn(emails, mailbox, threads), mailbox) == {}
    ensures EmptiedIn(emails, mailbox, threads) == map id | id in emails && mailbox !in emails[id].mailboxes :: emails[id]
  {
    var now := EmptiedIn(emails, mailbox, threads);
    CarryingHas(now, mailbox);
  }

  lemma NoneEmptied(emails: Emails, mailbox: MailboxId)
    ensures EmptiedIn(emails, mailbox, {}) == emails
  {
  }

  lemma Fewer(all: set<ThreadId>, taken: set<ThreadId>)
    requires taken <= all
    ensures |all - taken| == |all| - |taken|
  {
    assert (all - taken) + taken == all;
  }

  /** One turn of emptying: a page of conversations loses its messages in the mailbox. */
  method EmptyPage(server: Server, mailbox: MailboxId, ghost was: Emails, ghost threads: set<ThreadId>) returns (more: bool, ghost taken: set<ThreadId>)
    requires IsListing(server.emails, server.listing) && server.emails == EmptiedIn(was, mailbox, threads)
    modifies server`emails, server`listing
    ensures IsListing(server.emails, server.listing) && server.emails == EmptiedIn(was, mailbox, threads + taken)
    ensures !more ==> Carrying(server.emails, mailbox) == {}
    ensures more ==> |Carrying(server.emails, mailbox)| < |Carrying(old(server.emails), mailbox)|
  {
    hide IsListing, Carrying, EmptiedIn;
    var doomed, conversations;
    ghost var now := server.emails;
    doomed, conversations, taken := NextPage(server, mailbox, EMPTY_PAGE);
    if doomed == [] {
      assert threads + taken == threads;
      assert |Carrying(now, mailbox)| == 0;
      return false, taken;
    }
    ListingAfterDestroy(server.emails, server.listing, doomed);
    server.DestroyEmails(doomed);
    EmptiedMore(was, mailbox, threads, taken, doomed);
    EmptiedCarrying(was, mailbox, threads);
    EmptiedCarrying(was, mailbox, threads + taken);
    assert Carrying(server.emails, mailbox) == Carrying(now, mailbox) - taken;
    Fewer(Carrying(now, mailbox), taken);
    more := conversations >= EMPTY_PAGE;
  }

  /** `empty_mailbox`: Trash or Spam, and nothing else. It ends, and exactly the messages
      that were in the mailbox are gone, whatever else their conversations hold. */
  method EmptyMailbox(server: Server, nav: Nav, role: Role) returns (r: Result<ActionResult, Failure>)
    requires IsListing(server.emails, server.listing)
    modifies server`emails, server`listing
    ensures IsListing(server.emails, server.listing)
    ensures r.Ok? <==> role in {Trash, Spam} && role in nav.ids
    ensures r.Err? ==> server.emails == old(server.emails)
    ensures r.Ok? ==>
              && server.emails == (map id | id in old(server.emails) && nav.ids[role] !in old(server.emails)[id].mailboxes :: old(server.emails)[id])
              && r.value == ActionResult(UndoSpec(Emptied, [], map[], NoRider), [], Counts(0, 0), false)
  {
    hide IsListing, Carrying, EmptiedIn;
    if role !in {Trash, Spam} {
      return Err(BadSelection);
    }
    var target := nav.Resolve(role);
    if target.None? {
      return Err(NoSuchRole(role));
    }
    var mailbox := target.value;
    ghost var was := server.emails;
    ghost var threads: set<ThreadId> := {};
    NoneEmptied(was, mailbox);
    var more := true;
    while more
      invariant IsListing(server.emails, server.listing) && server.emails == EmptiedIn(was, mailbox, threads)
      invariant !more ==> Carrying(server.emails, mailbox) == {}
      decreases more, |Carrying(server.emails, mailbox)|
    {
      ghost var taken;
      more, taken := EmptyPage(server, mailbox, was, threads);
      threads := threads + taken;
    }
    EmptiedAll(was, mailbox, threads);
    r := Ok(Actions.ResultOf(Emptied, nav, [], false, NoRider, false));
  }
}
