/** The list page: one row per conversation, computed over the messages the view matched,
    in the order the server put the conversations. */
module ThreadList {
  import opened Wrappers
  import opened MailStore
  import opened Actions
  import opened Queries
  import opened LabelTree

  datatype Header = Header(id: EmailId, email: Email)

  datatype ThreadRow = ThreadRow(
    thread: ThreadId,
    emailIds: seq<EmailId>,
    latest: EmailId,
    senders: seq<string>,
    count: nat,
    subject: string,
    preview: string,
    receivedAt: int,
    unread: bool,
    starred: bool,
    attachment: bool,
    chips: seq<MailboxId>)

  datatype ThreadPage = ThreadPage(
    rows: seq<ThreadRow>, position: nat, limit: nat, total: nat, next: Option<nat>)

  /** What is being listed: Starred, All mail, or one mailbox (none, when the account was
      never given it). */
  datatype View = StarredView | AllMail | MailboxView(mailbox: Option<MailboxId>)

  type InScope = Email -> bool

  function SpamAndTrash(nav: Nav): set<MailboxId> {
    (if Spam in nav.ids then {nav.ids[Spam]} else {}) + (if Trash in nav.ids then {nav.ids[Trash]} else {})
  }

  /** The filter each view sends. */
  function CriteriaFor(view: View, nav: Nav): Criteria {
    match view
    case StarredView => Criteria(None, SpamAndTrash(nav), Some(Flagged))
    case AllMail => Criteria(None, SpamAndTrash(nav), None)
    case MailboxView(mailbox) => Criteria(mailbox, {}, None)
  }

  function InMailboxScope(mailbox: MailboxId): InScope {
    (e: Email) => mailbox in e.mailboxes
  }

  function OtherThanScope(excluded: set<MailboxId>, keyword: Option<Keyword>): InScope {
    (e: Email) => (keyword.Some? ==> keyword.value in e.keywords) && e.mailboxes - excluded != {}
  }

  /** And the predicate that mirrors it. */
  function ScopeFor(view: View, nav: Nav): InScope
    requires view.MailboxView? ==> view.mailbox.Some?
  {
    match view
    case StarredView => OtherThanScope(SpamAndTrash(nav), Some(Flagged))
    case AllMail => OtherThanScope(SpamAndTrash(nav), None)
    case MailboxView(mailbox) => InMailboxScope(mailbox.value)
  }

  /** The two agree on every filed message, in all three views. On a message in no mailbox
      they part exactly when there is nothing to exclude: the filter then has no mailbox
      condition left, and the predicate still asks for a mailbox. */
  lemma ScopeAgrees(view: View, nav: Nav, e: Email)
    requires view.MailboxView? ==> view.mailbox.Some?
    ensures e.mailboxes != {} ==> (Meets(e, CriteriaFor(view, nav)) <==> ScopeFor(view, nav)(e))
    ensures e.mailboxes == {} ==>
              (Meets(e, CriteriaFor(view, nav)) != ScopeFor(view, nav)(e)
               <==> !view.MailboxView? && SpamAndTrash(nav) == {} && (view.StarredView? ==> Flagged in e.keywords))
  {
    var excluded := SpamAndTrash(nav);
    if !view.MailboxView? {
      assert e.mailboxes - excluded != {} <==> exists m :: m in e.mailboxes && m !in excluded by {
        if m :| m in e.mailboxes && m !in excluded {
          assert m in e.mailboxes - excluded;
        }
      }
      if excluded == {} {
        assert e.mailboxes - excluded == e.mailboxes;
      }
    }
  }

  /** What each view is of: All mail, of what is anywhere but in Spam and Trash; Starred, of
      what is starred besides; a mailbox, of what is in it. */
  predicate Belongs(e: Email, view: View, nav: Nav) {
    match view
    case AllMail => OutOfSpamAndTrash(e, nav)
    case StarredView => OutOfSpamAndTrash(e, nav) && Flagged in e.keywords
    case MailboxView(mailbox) => mailbox.Some? && mailbox.value in e.mailboxes
  }

  predicate ThreadBelongs(emails: Emails, thread: ThreadId, view: View, nav: Nav) {
    exists id | id in emails :: emails[id].thread == thread && Belongs(emails[id], view, nav)
  }

  predicate OutOfSpamAndTrash(e: Email, nav: Nav) {
    exists m | m in e.mailboxes :: (Spam in nav.ids ==> m != nav.ids[Spam]) && (Trash in nav.ids ==> m != nav.ids[Trash])
  }

  /** A row is made of exactly the messages that belong, and so is the list, as long as
      every message is filed. */
  lemma ViewsAre(e: Email, view: View, nav: Nav)
    requires view.MailboxView? ==> view.mailbox.Some?
    ensures ScopeFor(view, nav)(e) <==> Belongs(e, view, nav)
    ensures e.mailboxes != {} ==> (Meets(e, CriteriaFor(view, nav)) <==> Belongs(e, view, nav))
  {
    ScopeAgrees(view, nav, e);
    var excluded := SpamAndTrash(nav);
    if OutOfSpamAndTrash(e, nav) {
      var m :| m in e.mailboxes && (Spam in nav.ids ==> m != nav.ids[Spam]) && (Trash in nav.ids ==> m != nav.ids[Trash]);
      assert m in e.mailboxes - excluded;
    }
    if m :| m in e.mailboxes - excluded {
      assert m in e.mailboxes && (Spam in nav.ids ==> m != nav.ids[Spam]) && (Trash in nav.ids ==> m != nav.ids[Trash]);
    }
  }

  // ----------------------------------------------------------------------- rows

  predicate OldestFirst(hs: seq<Header>) {
    forall i, j | 0 <= i < j < |hs| :: hs[i].email.receivedAt <= hs[j].email.receivedAt
  }

  /** Into its place, after any header of the same time. */
  function Place(sorted: seq<Header>, h: Header): (r: seq<Header>)
    ensures multiset(r) == multiset(sorted) + multiset{h}
  {
    if sorted == [] then [h]
    else if h.email.receivedAt < sorted[0].email.receivedAt then [h] + sorted
    else
      assert sorted == [sorted[0]] + sorted[1..];
      [sorted[0]] + Place(sorted[1..], h)
  }

  lemma {:induction false} PlaceKeepsOrder(sorted: seq<Header>, h: Header)
    requires OldestFirst(sorted)
    ensures OldestFirst(Place(sorted, h))
  {
    if sorted != [] && h.email.receivedAt >= sorted[0].email.receivedAt {
      var rest := sorted[1..];
      assert forall i | 0 <= i < |rest| :: rest[i] == sorted[i + 1];
      PlaceKeepsOrder(rest, h);
      var r := Place(rest, h);
      forall i | 0 <= i < |r| ensures sorted[0].email.receivedAt <= r[i].email.receivedAt {
        assert r[i] in multiset(rest) + multiset{h};
      }
    }
  }

  /** `sorted(emails, key=received_at)`. */
  function Sort(hs: seq<Header>): (r: seq<Header>)
    ensures OldestFirst(r)
    ensures multiset(r) == multiset(hs)
  {
    if hs == [] then []
    else
      var n := |hs| - 1;
      assert hs == hs[..n] + [hs[n]];
      PlaceKeepsOrder(Sort(hs[..n]), hs[n]);
      Place(Sort(hs[..n]), hs[n])
  }

  lemma SortKeeps(hs: seq<Header>)
    ensures |Sort(hs)| == |hs|
    ensures forall h :: h in Sort(hs) <==> h in hs
  {
    hide Sort;
    assert |multiset(hs)| == |hs| && |multiset(Sort(hs))| == |Sort(hs)|;
    forall h ensures h in Sort(hs) <==> h in hs {
      assert h in hs <==> h in multiset(hs);
      assert h in Sort(hs) <==> h in multiset(Sort(hs));
    }
  }

  function Scoped(hs: seq<Header>, inScope: InScope): (r: seq<Header>)
    ensures forall h :: h in r <==> h in hs && inScope(h.email)
  {
    if hs == [] then []
    else
      assert hs == [hs[0]] + hs[1..];
      (if inScope(hs[0].email) then [hs[0]] else []) + Scoped(hs[1..], inScope)
  }

  /** Leaving messages out keeps the rest in order. */
  lemma {:induction false} ScopedKeepsOrder(hs: seq<Header>, inScope: InScope)
    requires OldestFirst(hs)
    ensures OldestFirst(Scoped(hs, inScope))
  {
    if hs != [] {
      var rest := hs[1..];
      assert forall i | 0 <= i < |rest| :: rest[i] == hs[i + 1];
      ScopedKeepsOrder(rest, inScope);
      var r := Scoped(rest, inScope);
      forall h | h in r ensures hs[0].email.receivedAt <= h.email.receivedAt {
        var i :| 0 <= i < |rest| && rest[i] == h;
        assert hs[i + 1] == h;
      }
      OldestCons(hs[0], r);
      assert [] + r == r;
    }
  }

  lemma OldestCons(h: Header, rest: seq<Header>)
    requires OldestFirst(rest) && forall x | x in rest :: h.email.receivedAt <= x.email.receivedAt
    ensures OldestFirst([h] + rest)
  {
    var all := [h] + rest;
    forall i, j | 0 <= i < j < |all| ensures all[i].email.receivedAt <= all[j].email.receivedAt {
      assert all[j] == rest[j - 1] && rest[j - 1] in rest;
    }
  }

  /** Every mailbox some message is in. */
  function Placements(hs: seq<Header>): (mailboxes: set<MailboxId>)
    ensures forall m :: m in mailboxes <==> exists h | h in hs :: m in h.email.mailboxes
  {
    if hs == [] then {}
    else
      assert hs == hs[..|hs| - 1] + [hs[|hs| - 1]];
      Placements(hs[..|hs| - 1]) + hs[|hs| - 1].email.mailboxes
  }

  /** What a row says of its thread. Everything shown is over the messages in scope alone:
      how many there are and who they are from, oldest first; the newest of them, with its
      subject, preview and time; whether any is unread, starred or has an attachment; and
      the labels they carry. Only the ids an action works on are the whole thread's. */
  ghost predicate Tells(row: ThreadRow, thread: ThreadId, headers: seq<Header>, labels: seq<LabelNode>, inScope: InScope) {
    && row.thread == thread
    && IdsAre(row.emailIds, Sort(headers))
    && SendersAre(row.senders, Scoped(Sort(headers), inScope))
    && row.count == |Scoped(Sort(headers), inScope)|
    && NewestInScope(row, headers, inScope)
    && (row.unread <==> exists h | h in headers :: inScope(h.email) && Seen !in h.email.keywords)
    && (row.starred <==> exists h | h in headers :: inScope(h.email) && Flagged in h.email.keywords)
    && (row.attachment <==> exists h | h in headers :: inScope(h.email) && h.email.content.attachment)
    && row.chips == ChipsOf(labels, Placements(Scoped(Sort(headers), inScope)))
  }

  predicate IdsAre(ids: seq<EmailId>, hs: seq<Header>) {
    |ids| == |hs| && forall i | 0 <= i < |hs| :: ids[i] == hs[i].id
  }

  predicate SendersAre(senders: seq<string>, hs: seq<Header>) {
    |senders| == |hs| && forall i | 0 <= i < |hs| :: senders[i] == hs[i].email.content.sender
  }

  const NO_SUBJECT: string := "(no subject)"

  function SubjectOf(e: Email): string {
    if e.content.subject.None? || e.content.subject.value == "" then NO_SUBJECT else e.content.subject.value
  }

  /** The row's headline is one message's. */
  predicate Headlines(row: ThreadRow, h: Header) {
    && row.latest == h.id && row.receivedAt == h.email.receivedAt
    && row.preview == h.email.content.preview
    && row.subject == (if h.email.content.subject in {None, Some("")} then "(no subject)" else h.email.content.subject.value)
  }

  ghost predicate NewestInScope(row: ThreadRow, headers: seq<Header>, inScope: InScope) {
    && (exists h | h in headers :: inScope(h.email) && Headlines(row, h))
    && (forall h | h in headers && inScope(h.email) :: h.email.receivedAt <= row.receivedAt)
  }

  /** `_row_for_thread`: a row whenever some message of the thread is in scope. */
  method RowForThread(thread: ThreadId, headers: seq<Header>, labels: seq<LabelNode>, inScope: InScope) returns (row: Option<ThreadRow>)
    ensures row.Some? <==> exists h | h in headers :: inScope(h.email)
    ensures row.Some? ==> Tells(row.value, thread, headers, labels, inScope)
  {
    hide Sort, Scoped, Placements, ChipsOf, RowFrom, Tells;
    var oldestToNewest := Sort(headers);
    SortKeeps(headers);
    var scoped := Scoped(oldestToNewest, inScope);
    assert forall h :: h in scoped <==> h in headers && inScope(h.email);
    if scoped == [] {
      return None;
    }
    assert scoped[|scoped| - 1] in scoped;
    var mailboxes := MailboxesOf(scoped);
    var chips := ChipsFor(labels, mailboxes);
    RowTells(thread, headers, labels, inScope);
    row := Some(RowFrom(thread, oldestToNewest, scoped, chips));
  }

  /** The row's fields, read off the sorted messages and those in scope. */
  function RowFrom(thread: ThreadId, oldestToNewest: seq<Header>, scoped: seq<Header>, chips: seq<MailboxId>): ThreadRow
    requires scoped != []
  {
    var latest := scoped[|scoped| - 1];
    ThreadRow(
      thread,
      seq(|oldestToNewest|, i requires 0 <= i < |oldestToNewest| => oldestToNewest[i].id),
      latest.id,
      seq(|scoped|, i requires 0 <= i < |scoped| => scoped[i].email.content.sender),
      |scoped|,
      SubjectOf(latest.email),
      latest.email.content.preview,
      latest.email.receivedAt,
      exists h | h in scoped :: Seen !in h.email.keywords,
      exists h | h in scoped :: Flagged in h.email.keywords,
      exists h | h in scoped :: h.email.content.attachment,
      chips)
  }

  lemma RowTells(thread: ThreadId, headers: seq<Header>, labels: seq<LabelNode>, inScope: InScope)
    requires Scoped(Sort(headers), inScope) != []
    ensures
      var scoped := Scoped(Sort(headers), inScope);
      Tells(RowFrom(thread, Sort(headers), scoped, ChipsOf(labels, Placements(scoped))), thread, headers, labels, inScope)
  {
    hide Sort, Scoped, Placements, ChipsOf, OldestFirst;
    SortKeeps(headers);
    var scoped := Scoped(Sort(headers), inScope);
    ScopedKeepsOrder(Sort(headers), inScope);
    LastIsNewest(scoped);
    var latest := scoped[|scoped| - 1];
    assert latest in scoped && latest in headers;
    var row := RowFrom(thread, Sort(headers), scoped, ChipsOf(labels, Placements(scoped)));
    assert Headlines(row, latest);
    assert forall h :: h in scoped <==> h in headers && inScope(h.email);
  }

  lemma LastIsNewest(hs: seq<Header>)
    requires hs != [] && OldestFirst(hs)
    ensures forall h | h in hs :: h.email.receivedAt <= hs[|hs| - 1].email.receivedAt
  {
    forall h | h in hs ensures h.email.receivedAt <= hs[|hs| - 1].email.receivedAt {
      var i :| 0 <= i < |hs| && hs[i] == h;
      assert i == |hs| - 1 || i < |hs| - 1;
    }
  }

  method MailboxesOf(hs: seq<Header>) returns (mailboxes: set<MailboxId>)
    ensures mailboxes == Placements(hs)
  {
    mailboxes := {};
    var i := 0;
    while i < |hs|
      invariant 0 <= i <= |hs| && mailboxes == Placements(hs[..i])
    {
      assert hs[..i + 1][..i] == hs[..i];
      mailboxes := mailboxes + hs[i].email.mailboxes;
      i := i + 1;
    }
    assert hs[..i] == hs;
  }

  function HeadersOf(emails: Emails, ids: seq<EmailId>): (hs: seq<Header>)
    requires forall id | id in ids :: id in emails
    ensures |hs| == |ids| && forall i | 0 <= i < |hs| :: hs[i] == Header(ids[i], emails[ids[i]])
    ensures forall id | id in ids :: Header(id, emails[id]) in hs
    ensures forall h | h in hs :: h.id in ids && h.email == emails[h.id]
  {
    var hs := seq(|ids|, i requires 0 <= i < |ids| => Header(ids[i], emails[ids[i]]));
    assert forall i | 0 <= i < |ids| :: hs[i] == Header(ids[i], emails[ids[i]]);
    hs
  }

  // ----------------------------------------------------------------------- page

  /** A row that stands for its thread the way the server saw it: same thread, the time of
      the representative the server sorted by, and all the thread's messages behind it. */
  ghost predicate Shows(row: ThreadRow, emails: Emails, rep: EmailId)
    requires rep in emails
  {
    && row.thread == emails[rep].thread
    && row.receivedAt == emails[rep].receivedAt
    && forall id :: id in row.emailIds <==> id in emails && emails[id].thread == row.thread
  }

  /** A row of the page: what `_row_for_thread` says of the whole thread of one
      representative, in the view's scope. */
  ghost predicate RowOf(row: ThreadRow, emails: Emails, listing: seq<EmailId>, view: View, nav: Nav, labels: seq<LabelNode>, rep: EmailId)
    requires IsListing(emails, listing) && (view.MailboxView? ==> view.mailbox.Some?)
  {
    && rep in emails
    && Tells(row, emails[rep].thread, HeadersOf(emails, Members(emails, listing, emails[rep].thread)), labels, ScopeFor(view, nav))
    && Shows(row, emails, rep)
  }

  /** The representatives of the threads on a page. */
  function ShownOn(emails: Emails, listing: seq<EmailId>, view: View, nav: Nav, position: nat, limit: nat): (shown: seq<EmailId>)
    requires IsListing(emails, listing)
    ensures forall id | id in shown :: id in emails
  {
    var reps := Representatives(emails, listing, CriteriaFor(view, nav));
    var shown := Slice(reps, position, limit);
    assert forall i | 0 <= i < |shown| :: shown[i] == reps[position + i] && reps[position + i] in reps;
    shown
  }

  lemma PageIs(emails: Emails, listing: seq<EmailId>, view: View, nav: Nav, position: nat, limit: nat)
    requires IsListing(emails, listing)
    ensures
      var page := PageOf(emails, listing, CriteriaFor(view, nav), position, limit);
      var shown := ShownOn(emails, listing, view, nav, position, limit);
      && page.position == position
      && page.total == |Representatives(emails, listing, CriteriaFor(view, nav))|
      && |page.threadOrder| == |shown|
      && forall i | 0 <= i < |shown| ::
           var thread := emails[shown[i]].thread;
           page.threadOrder[i] == thread && thread in page.members && page.members[thread] == Members(emails, listing, thread)
  {
    hide Representatives, Members, CriteriaFor;
    var page := PageOf(emails, listing, CriteriaFor(view, nav), position, limit);
    var shown := ShownOn(emails, listing, view, nav, position, limit);
    forall i | 0 <= i < |shown|
      ensures
        var thread := emails[shown[i]].thread;
        page.threadOrder[i] == thread && thread in page.members && page.members[thread] == Members(emails, listing, thread)
    {
      assert page.threadOrder[i] in page.threadOrder;
    }
  }

  /** A page as the view should show it: a row for every representative on its slice, the
      true total, and the position of the following slice, if there is one. */
  ghost predicate IsPage(page: ThreadPage, emails: Emails, listing: seq<EmailId>, view: View, nav: Nav, labels: seq<LabelNode>, limit: nat)
    requires IsListing(emails, listing) && (view.MailboxView? ==> view.mailbox.Some?)
  {
    var shown := ShownOn(emails, listing, view, nav, page.position, limit);
    var total := |Representatives(emails, listing, CriteriaFor(view, nav))|;
    && |page.rows| == |shown|
    && (forall i | 0 <= i < |shown| :: RowOf(page.rows[i], emails, listing, view, nav, labels, shown[i]))
    && page.total == total && page.limit == limit
    && page.next == (if page.position + limit < total then Some(page.position + limit) else None)
  }

  /** `build_page`. No thread of the page is dropped, every row shows its representative,
      and the next position is that of the following slice, if there is one. */
  method BuildPage(server: Server, view: View, nav: Nav, labels: seq<LabelNode>, position: nat, limit: nat) returns (page: ThreadPage)
    requires IsListing(server.emails, server.listing) && AllFiled(server.emails)
    ensures view == MailboxView(None) ==> page == ThreadPage([], position, limit, 0, None)
    ensures view != MailboxView(None) ==>
              page.position == position && IsPage(page, server.emails, server.listing, view, nav, labels, limit)
  {
    hide Representatives, Members, CriteriaFor, ScopeFor, RowOf, PageOf, ShownOn, IsListing;
    if view == MailboxView(None) {
      return ThreadPage([], position, limit, 0, None);
    }
    var query := Query(server, CriteriaFor(view, nav), position, limit);
    ghost var shown := ShownOn(server.emails, server.listing, view, nav, position, limit);
    PageIs(server.emails, server.listing, view, nav, position, limit);
    var rows: seq<ThreadRow> := [];
    var i := 0;
    while i < |query.threadOrder|
      invariant 0 <= i <= |query.threadOrder| == |shown|
      invariant |rows| == i
      invariant forall j | 0 <= j < i :: RowOf(rows[j], server.emails, server.listing, view, nav, labels, shown[j])
    {
      var row := FetchRow(server, view, nav, labels, query.threadOrder[i], query.members[query.threadOrder[i]], position, limit, i);
      if row.Some? {
        rows := rows + [row.value];
      }
      i := i + 1;
    }
    page := ThreadPage(rows, query.position, limit, query.total,
                       if query.position + limit < query.total then Some(query.position + limit) else None);
  }

  /** One turn of the loop over the page's threads. */
  method FetchRow(server: Server, view: View, nav: Nav, labels: seq<LabelNode>, thread: ThreadId, members: seq<EmailId>, ghost position: nat, ghost limit: nat, ghost at: nat)
    returns (row: Option<ThreadRow>)
    requires IsListing(server.emails, server.listing) && AllFiled(server.emails)
    requires view.MailboxView? ==> view.mailbox.Some?
    requires at < |ShownOn(server.emails, server.listing, view, nav, position, limit)|
    requires thread == server.emails[ShownOn(server.emails, server.listing, view, nav, position, limit)[at]].thread
    requires members == Members(server.emails, server.listing, thread)
    ensures
      var rep := ShownOn(server.emails, server.listing, view, nav, position, limit)[at];
      row.Some? && RowOf(row.value, server.emails, server.listing, view, nav, labels, rep)
  {
    hide Representatives, Members, CriteriaFor, ScopeFor, Tells, Shows, Meets;
    var headers := HeadersOf(server.emails, members);
    RowShows(server.emails, server.listing, view, nav, position + at, headers);
    row := RowForThread(thread, headers, labels, ScopeFor(view, nav));
  }

  /** The row of a thread on the page exists, and shows the thread's representative. */
  lemma RowShows(emails: Emails, listing: seq<EmailId>, view: View, nav: Nav, at: nat, headers: seq<Header>)
    requires IsListing(emails, listing) && AllFiled(emails)
    requires view.MailboxView? ==> view.mailbox.Some?
    requires at < |Representatives(emails, listing, CriteriaFor(view, nav))|
    requires
      var rep := Representatives(emails, listing, CriteriaFor(view, nav))[at];
      rep in emails && headers == HeadersOf(emails, Members(emails, listing, emails[rep].thread))
    ensures exists h | h in headers :: ScopeFor(view, nav)(h.email)
    ensures
      var rep := Representatives(emails, listing, CriteriaFor(view, nav))[at];
      forall row, labels | Tells(row, emails[rep].thread, headers, labels, ScopeFor(view, nav)) :: Shows(row, emails, rep)
  {
    hide Representatives, Members, Sort, Scoped, ChipsOf, Placements, CriteriaFor, ScopeFor, Meets, Tells, Shows;
    var q, inScope := CriteriaFor(view, nav), ScopeFor(view, nav);
    var rep := Representatives(emails, listing, q)[at];
    assert rep in Representatives(emails, listing, q);
    ScopeAgrees(view, nav, emails[rep]);
    assert Header(rep, emails[rep]) in headers;
    forall row, labels | Tells(row, emails[rep].thread, headers, labels, inScope) ensures Shows(row, emails, rep) {
      RowTime(emails, listing, view, nav, at, headers, row, labels);
      RowIds(emails, listing, emails[rep].thread, headers, row, labels, inScope);
      ShowsIs(row, emails, rep);
    }
  }

  lemma ShowsIs(row: ThreadRow, emails: Emails, rep: EmailId)
    requires rep in emails && row.thread == emails[rep].thread && row.receivedAt == emails[rep].receivedAt
    requires forall id :: id in row.emailIds <==> id in emails && emails[id].thread == row.thread
    ensures Shows(row, emails, rep)
  {
  }

  /** The time a row shows is the one the server sorted the thread by. */
  lemma RowTime(emails: Emails, listing: seq<EmailId>, view: View, nav: Nav, at: nat, headers: seq<Header>, row: ThreadRow, labels: seq<LabelNode>)
    requires IsListing(emails, listing) && AllFiled(emails)
    requires view.MailboxView? ==> view.mailbox.Some?
    requires at < |Representatives(emails, listing, CriteriaFor(view, nav))|
    requires
      var rep := Representatives(emails, listing, CriteriaFor(view, nav))[at];
      && rep in emails && headers == HeadersOf(emails, Members(emails, listing, emails[rep].thread))
      && Tells(row, emails[rep].thread, headers, labels, ScopeFor(view, nav))
    ensures row.receivedAt == emails[Representatives(emails, listing, CriteriaFor(view, nav))[at]].receivedAt
  {
    hide Representatives, Members, Sort, Scoped, ChipsOf, Placements, CriteriaFor, ScopeFor, Meets, Represented;
    var q, inScope := CriteriaFor(view, nav), ScopeFor(view, nav);
    var reps := Representatives(emails, listing, q);
    var rep := reps[at];
    assert rep in reps;
    ScopeAgrees(view, nav, emails[rep]);
    RepresentativesAre(emails, listing, q);
    assert Header(rep, emails[rep]) in headers;
    var newest :| newest in headers && inScope(newest.email) && Headlines(row, newest);
    ScopeAgrees(view, nav, newest.email);
    NewestIsRepresentative(emails, reps, at, newest.id);
  }

  /** And the ids behind it are the whole thread's. */
  lemma RowIds(emails: Emails, listing: seq<EmailId>, thread: ThreadId, headers: seq<Header>, row: ThreadRow, labels: seq<LabelNode>, inScope: InScope)
    requires IsListing(emails, listing)
    requires headers == HeadersOf(emails, Members(emails, listing, thread))
    requires Tells(row, thread, headers, labels, inScope)
    ensures row.thread == thread
    ensures forall id :: id in row.emailIds <==> id in emails && emails[id].thread == row.thread
  {
    hide Members, Sort, Scoped, ChipsOf, Placements;
    SortKeeps(headers);
    var sorted := Sort(headers);
    forall id ensures id in row.emailIds <==> id in emails && emails[id].thread == thread {
      if id in row.emailIds {
        var i :| 0 <= i < |row.emailIds| && row.emailIds[i] == id;
        assert sorted[i] in headers;
      }
      if id in emails && emails[id].thread == thread {
        assert Header(id, emails[id]) in sorted;
        var i :| 0 <= i < |sorted| && sorted[i] == Header(id, emails[id]);
        assert row.emailIds[i] == id;
      }
    }
  }

  /** Nothing that matched in a thread is newer than the thread's representative. */
  lemma NewestIsRepresentative(emails: Emails, reps: seq<EmailId>, at: nat, id: EmailId)
    requires at < |reps| && (forall r | r in reps :: r in emails) && id in emails
    requires Distinct(Queries.ThreadsOf(emails, reps)) && Represented(emails, reps, id)
    requires emails[id].thread == emails[reps[at]].thread
    ensures emails[id].receivedAt <= emails[reps[at]].receivedAt
  {
    var threads := Queries.ThreadsOf(emails, reps);
    var rep :| rep in reps && emails[rep].thread == emails[id].thread && emails[rep].receivedAt >= emails[id].receivedAt;
    var j :| 0 <= j < |reps| && reps[j] == rep;
    assert threads[j] == threads[at];
  }

  /** The date column sorts: down the page no row is newer than the one above it. */
  lemma RowsNewestFirst(emails: Emails, listing: seq<EmailId>, view: View, nav: Nav, labels: seq<LabelNode>, position: nat, limit: nat, rows: seq<ThreadRow>)
    requires IsListing(emails, listing) && (view.MailboxView? ==> view.mailbox.Some?)
    requires
      var shown := ShownOn(emails, listing, view, nav, position, limit);
      |rows| == |shown| && forall i | 0 <= i < |shown| :: RowOf(rows[i], emails, listing, view, nav, labels, shown[i])
    ensures forall i, j | 0 <= i < j < |rows| :: rows[i].receivedAt >= rows[j].receivedAt
  {
    hide Representatives, Members, CriteriaFor, ScopeFor, Tells, Represented, IsListing;
    RepresentativesAre(emails, listing, CriteriaFor(view, nav));
    var shown := ShownOn(emails, listing, view, nav, position, limit);
    forall i, j | 0 <= i < j < |rows| ensures rows[i].receivedAt >= rows[j].receivedAt {
      assert Shows(rows[i], emails, shown[i]) && Shows(rows[j], emails, shown[j]);
    }
  }

  // --------------------------------------------------------------------- paging

  /** Where a row stands: its thread, and the time it shows. */
  datatype Entry = Entry(thread: ThreadId, receivedAt: int)

  function EntriesOf(rows: seq<ThreadRow>): (entries: seq<Entry>)
    ensures |entries| == |rows| && forall i | 0 <= i < |rows| :: entries[i] == Entry(rows[i].thread, rows[i].receivedAt)
  {
    seq(|rows|, i requires 0 <= i < |rows| => Entry(rows[i].thread, rows[i].receivedAt))
  }

  /** The list a view pages through, as its rows should show it. */
  function WholeList(emails: Emails, listing: seq<EmailId>, view: View, nav: Nav): (entries: seq<Entry>)
    requires IsListing(emails, listing)
    ensures |entries| == |Representatives(emails, listing, CriteriaFor(view, nav))|
  {
    var reps := Representatives(emails, listing, CriteriaFor(view, nav));
    assert forall i | 0 <= i < |reps| :: reps[i] in reps;
    seq(|reps|, i requires 0 <= i < |reps| => Entry(emails[reps[i]].thread, emails[reps[i]].receivedAt))
  }

  /** The rows met going through some pages. */
  function RowsOn(pages: seq<ThreadPage>): seq<ThreadRow> {
    if pages == [] then [] else pages[0].rows + RowsOn(pages[1..])
  }

  /** Pages, each at the next position of the one before. */
  ghost predicate Linked(pages: seq<ThreadPage>, emails: Emails, listing: seq<EmailId>, view: View, nav: Nav, labels: seq<LabelNode>, limit: nat)
    requires IsListing(emails, listing) && (view.MailboxView? ==> view.mailbox.Some?)
  {
    && pages != []
    && (forall page | page in pages :: IsPage(page, emails, listing, view, nav, labels, limit))
    && (forall i | 0 <= i < |pages| - 1 :: pages[i].next == Some(pages[i + 1].position))
  }

  /** Such a chain from the top, to a page that has none. */
  ghost predicate Followed(pages: seq<ThreadPage>, emails: Emails, listing: seq<EmailId>, view: View, nav: Nav, labels: seq<LabelNode>, limit: nat)
    requires IsListing(emails, listing) && (view.MailboxView? ==> view.mailbox.Some?)
  {
    && Linked(pages, emails, listing, view, nav, labels, limit)
    && pages[0].position == 0 && pages[|pages| - 1].next == None
  }

  lemma PageEntries(page: ThreadPage, emails: Emails, listing: seq<EmailId>, view: View, nav: Nav, labels: seq<LabelNode>, limit: nat)
    requires IsListing(emails, listing) && (view.MailboxView? ==> view.mailbox.Some?)
    requires IsPage(page, emails, listing, view, nav, labels, limit)
    ensures
      var all := WholeList(emails, listing, view, nav);
      && EntriesOf(page.rows) == Slice(all, page.position, limit)
      && page.next == if page.position + limit < |all| then Some(page.position + limit) else None
  {
    hide Representatives, Members, CriteriaFor, ScopeFor, Tells, IsListing;
    var shown := ShownOn(emails, listing, view, nav, page.position, limit);
    forall i | 0 <= i < |shown|
      ensures EntriesOf(page.rows)[i] == Entry(emails[shown[i]].thread, emails[shown[i]].receivedAt)
    {
      assert RowOf(page.rows[i], emails, listing, view, nav, labels, shown[i]);
      assert Shows(page.rows[i], emails, shown[i]);
    }
  }

  lemma LinkedHead(pages: seq<ThreadPage>, emails: Emails, listing: seq<EmailId>, view: View, nav: Nav, labels: seq<LabelNode>, limit: nat)
    requires IsListing(emails, listing) && (view.MailboxView? ==> view.mailbox.Some?)
    requires Linked(pages, emails, listing, view, nav, labels, limit)
    ensures pages != [] && IsPage(pages[0], emails, listing, view, nav, labels, limit)
    ensures |pages| > 1 ==> pages[0].next == Some(pages[1].position) && Linked(pages[1..], emails, listing, view, nav, labels, limit)
  {
    hide IsPage, IsListing;
    assert pages[0] in pages;
    assert forall page | page in pages[1..] :: page in pages;
  }

  lemma LinkedAppend(pages: seq<ThreadPage>, page: ThreadPage, emails: Emails, listing: seq<EmailId>, view: View, nav: Nav, labels: seq<LabelNode>, limit: nat)
    requires IsListing(emails, listing) && (view.MailboxView? ==> view.mailbox.Some?)
    requires Linked(pages, emails, listing, view, nav, labels, limit) && IsPage(page, emails, listing, view, nav, labels, limit)
    requires pages[|pages| - 1].next == Some(page.position)
    ensures Linked(pages + [page], emails, listing, view, nav, labels, limit)
  {
    hide IsPage, IsListing;
  }

  /** However pages are chained, finished or not, they get on: each stands further down the
      list than the one before, and only a page at the very start can stand past its end. */
  lemma {:induction false} ChainIsShort(pages: seq<ThreadPage>, emails: Emails, listing: seq<EmailId>, view: View, nav: Nav, labels: seq<LabelNode>, limit: nat)
    requires IsListing(emails, listing) && (view.MailboxView? ==> view.mailbox.Some?) && limit > 0
    requires Linked(pages, emails, listing, view, nav, labels, limit)
    ensures |pages| >= 1 && (|pages| == 1 || pages[0].position + |pages| <= |WholeList(emails, listing, view, nav)|)
    decreases |pages|
  {
    hide IsPage, IsListing, WholeList, Linked;
    LinkedHead(pages, emails, listing, view, nav, labels, limit);
    PageEntries(pages[0], emails, listing, view, nav, labels, limit);
    if |pages| > 1 {
      ChainIsShort(pages[1..], emails, listing, view, nav, labels, limit);
    }
  }

  lemma SliceThenRest<T>(s: seq<T>, position: nat, limit: nat)
    ensures position + limit < |s| ==> s[position..] == Slice(s, position, limit) + s[position + limit..]
    ensures position < |s| <= position + limit ==> s[position..] == Slice(s, position, limit) + []
    ensures position >= |s| ==> Slice(s, position, limit) + [] == []
  {
  }

  lemma EntriesAppend(a: seq<ThreadRow>, b: seq<ThreadRow>)
    ensures EntriesOf(a + b) == EntriesOf(a) + EntriesOf(b)
  {
  }

  /** A chain that ends shows exactly the rest of the list, in its order. */
  lemma {:induction false} ChainShowsRest(pages: seq<ThreadPage>, emails: Emails, listing: seq<EmailId>, view: View, nav: Nav, labels: seq<LabelNode>, limit: nat)
    requires IsListing(emails, listing) && (view.MailboxView? ==> view.mailbox.Some?) && limit > 0
    requires Linked(pages, emails, listing, view, nav, labels, limit) && pages[|pages| - 1].next == None
    ensures pages != []
    ensures
      var all := WholeList(emails, listing, view, nav);
      EntriesOf(RowsOn(pages)) == if pages[0].position < |all| then all[pages[0].position..] else []
    decreases |pages|
  {
    hide IsPage, IsListing, WholeList, Linked, Slice, EntriesOf;
    var all := WholeList(emails, listing, view, nav);
    LinkedHead(pages, emails, listing, view, nav, labels, limit);
    PageEntries(pages[0], emails, listing, view, nav, labels, limit);
    SliceThenRest(all, pages[0].position, limit);
    EntriesAppend(pages[0].rows, RowsOn(pages[1..]));
    if |pages| == 1 {
      NoEntries();
      assert RowsOn(pages[1..]) == [];
    } else {
      ChainShowsRest(pages[1..], emails, listing, view, nav, labels, limit);
    }
  }

  lemma NoEntries()
    ensures EntriesOf([]) == []
  {
  }

  /** Following the next position from the top: it ends, on every account and with every
      page size. */
  method PageThrough(server: Server, view: View, nav: Nav, labels: seq<LabelNode>, limit: nat) returns (pages: seq<ThreadPage>)
    requires IsListing(server.emails, server.listing) && AllFiled(server.emails)
    requires (view.MailboxView? ==> view.mailbox.Some?) && limit > 0
    ensures Followed(pages, server.emails, server.listing, view, nav, labels, limit)
  {
    hide IsListing, IsPage, Linked, WholeList;
    var page := BuildPage(server, view, nav, labels, 0, limit);
    pages := [page];
    LinkedOne(page, server.emails, server.listing, view, nav, labels, limit);
    while page.next.Some?
      invariant Linked(pages, server.emails, server.listing, view, nav, labels, limit)
      invariant pages != [] && pages[0].position == 0 && pages[|pages| - 1] == page
      invariant IsPage(page, server.emails, server.listing, view, nav, labels, limit)
      decreases |WholeList(server.emails, server.listing, view, nav)| - page.position
    {
      PageEntries(page, server.emails, server.listing, view, nav, labels, limit);
      page := BuildPage(server, view, nav, labels, page.next.value, limit);
      LinkedAppend(pages, page, server.emails, server.listing, view, nav, labels, limit);
      pages := pages + [page];
    }
  }

  lemma LinkedOne(page: ThreadPage, emails: Emails, listing: seq<EmailId>, view: View, nav: Nav, labels: seq<LabelNode>, limit: nat)
    requires IsListing(emails, listing) && (view.MailboxView? ==> view.mailbox.Some?)
    requires IsPage(page, emails, listing, view, nav, labels, limit)
    ensures Linked([page], emails, listing, view, nav, labels, limit)
  {
    hide IsPage, IsListing;
  }

  /** What a reader who follows it to the end has seen: every matching thread, none of them
      twice, and down all the pages together no row newer than the one above it. */
  lemma PagingIsComplete(pages: seq<ThreadPage>, emails: Emails, listing: seq<EmailId>, view: View, nav: Nav, labels: seq<LabelNode>, limit: nat)
    requires IsListing(emails, listing) && (view.MailboxView? ==> view.mailbox.Some?) && limit > 0
    requires Followed(pages, emails, listing, view, nav, labels, limit)
    ensures forall t :: t in MatchingThreads(emails, CriteriaFor(view, nav)) <==> exists row :: row in RowsOn(pages) && row.thread == t
    ensures AllFiled(emails) ==>
              forall t :: ThreadBelongs(emails, t, view, nav) <==> exists row :: row in RowsOn(pages) && row.thread == t
    ensures forall i, j | 0 <= i < j < |RowsOn(pages)| ::
              RowsOn(pages)[i].thread != RowsOn(pages)[j].thread && RowsOn(pages)[i].receivedAt >= RowsOn(pages)[j].receivedAt
  {
    hide IsListing, Linked, WholeList, MatchingThreads, RowsOn;
    ChainShowsRest(pages, emails, listing, view, nav, labels, limit);
    var all, rows := WholeList(emails, listing, view, nav), RowsOn(pages);
    assert EntriesOf(rows) == all;
    WholeListIs(emails, listing, view, nav);
    assert |rows| == |all| && forall i | 0 <= i < |rows| :: all[i] == Entry(rows[i].thread, rows[i].receivedAt);
    forall t ensures t in MatchingThreads(emails, CriteriaFor(view, nav)) <==> exists row :: row in rows && row.thread == t {
      if t in MatchingThreads(emails, CriteriaFor(view, nav)) {
        var i :| 0 <= i < |all| && all[i].thread == t;
        assert rows[i] in rows;
      }
      if row :| row in rows && row.thread == t {
        var i :| 0 <= i < |rows| && rows[i] == row;
        assert all[i].thread == t;
      }
    }
    if AllFiled(emails) {
      ThreadsBelonging(emails, view, nav);
    }
  }

  lemma ThreadsBelonging(emails: Emails, view: View, nav: Nav)
    requires AllFiled(emails) && (view.MailboxView? ==> view.mailbox.Some?)
    ensures forall t :: t in MatchingThreads(emails, CriteriaFor(view, nav)) <==> ThreadBelongs(emails, t, view, nav)
  {
    hide CriteriaFor, Meets, Belongs;
    forall id | id in emails ensures Meets(emails[id], CriteriaFor(view, nav)) <==> Belongs(emails[id], view, nav) {
      ViewsAre(emails[id], view, nav);
    }
  }

  lemma WholeListIs(emails: Emails, listing: seq<EmailId>, view: View, nav: Nav)
    requires IsListing(emails, listing)
    ensures
      var all := WholeList(emails, listing, view, nav);
      && (forall t :: t in MatchingThreads(emails, CriteriaFor(view, nav)) <==> exists i :: 0 <= i < |all| && all[i].thread == t)
      && forall i, j | 0 <= i < j < |all| :: all[i].thread != all[j].thread && all[i].receivedAt >= all[j].receivedAt
  {
    hide Representatives, CriteriaFor, IsListing, MatchingThreads, Represented;
    RepresentativesAre(emails, listing, CriteriaFor(view, nav));
    var all := WholeList(emails, listing, view, nav);
    var threads := Queries.ThreadsOf(emails, Representatives(emails, listing, CriteriaFor(view, nav)));
    assert |threads| == |all| && forall i | 0 <= i < |all| :: threads[i] == all[i].thread;
    forall t ensures t in MatchingThreads(emails, CriteriaFor(view, nav)) <==> exists i :: 0 <= i < |all| && all[i].thread == t {
      if t in threads {
        var i :| 0 <= i < |threads| && threads[i] == t;
        assert all[i].thread == t;
      }
      if i :| 0 <= i < |all| && all[i].thread == t {
        assert threads[i] == t;
      }
    }
  }
}
