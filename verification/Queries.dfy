/** `Email/query` with sorting and thread collapsing (section 4.4.3 of RFC 8621), and the
    page of whole threads `query_page` and `query_search` fetch with it. */
module Queries {
  import opened Wrappers
  import opened MailStore

  /** The three structured conditions a list view sends; an empty `otherThan` is not sent. */
  datatype Criteria = Criteria(
    inMailbox: Option<MailboxId>, otherThan: set<MailboxId>, hasKeyword: Option<Keyword>)

  /** Section 4.4.1 of RFC 8621. */
  predicate Meets(e: Email, q: Criteria) {
    && (q.inMailbox.Some? ==> q.inMailbox.value in e.mailboxes)
    && (q.otherThan != {} ==> exists m :: m in e.mailboxes && m !in q.otherThan)
    && (q.hasKeyword.Some? ==> q.hasKeyword.value in e.keywords)
  }

  /** The messages that match, in the server's order. */
  function Matching(emails: Emails, listing: seq<EmailId>, q: Criteria): (ids: seq<EmailId>)
    requires forall id | id in listing :: id in emails
    ensures forall id :: id in ids <==> id in listing && Meets(emails[id], q)
  {
    if listing == [] then []
    else
      assert listing == [listing[0]] + listing[1..];
      (if Meets(emails[listing[0]], q) then [listing[0]] else []) + Matching(emails, listing[1..], q)
  }

  /** Collapsing threads keeps the first message of each. */
  function FirstPerThread(emails: Emails, ids: seq<EmailId>, seen: set<ThreadId>): (reps: seq<EmailId>)
    requires forall id | id in ids :: id in emails
    ensures forall id | id in reps :: id in ids
  {
    if ids == [] then []
    else
      assert ids == [ids[0]] + ids[1..];
      var thread := emails[ids[0]].thread;
      if thread in seen then FirstPerThread(emails, ids[1..], seen)
      else [ids[0]] + FirstPerThread(emails, ids[1..], seen + {thread})
  }

  /** One representative message per matching thread, in list order. */
  function Representatives(emails: Emails, listing: seq<EmailId>, q: Criteria): (reps: seq<EmailId>)
    requires IsListing(emails, listing)
    ensures forall id | id in reps :: id in emails && Meets(emails[id], q)
  {
    FirstPerThread(emails, Matching(emails, listing, q), {})
  }

  function ThreadsOf(emails: Emails, ids: seq<EmailId>): (threads: seq<ThreadId>)
    requires forall id | id in ids :: id in emails
    ensures |threads| == |ids| && forall i | 0 <= i < |ids| :: threads[i] == emails[ids[i]].thread
  {
    seq(|ids|, i requires 0 <= i < |ids| => emails[ids[i]].thread)
  }

  /** Every message of a thread, matching or not. */
  function Members(emails: Emails, listing: seq<EmailId>, thread: ThreadId): (ids: seq<EmailId>)
    requires forall id | id in listing :: id in emails
    ensures forall id :: id in ids <==> id in listing && emails[id].thread == thread
  {
    if listing == [] then []
    else
      assert listing == [listing[0]] + listing[1..];
      (if emails[listing[0]].thread == thread then [listing[0]] else []) + Members(emails, listing[1..], thread)
  }

  /** `QueryPage`: the page's threads in order, how many there are in all, and every
      message of each thread on the page. */
  datatype QueryPage = QueryPage(
    threadOrder: seq<ThreadId>, total: nat, members: map<ThreadId, seq<EmailId>>, position: nat)

  function Slice<T>(s: seq<T>, position: nat, limit: nat): (r: seq<T>)
    ensures |r| == if position >= |s| then 0 else if position + limit <= |s| then limit else |s| - position
    ensures forall i | 0 <= i < |r| :: r[i] == s[position + i]
  {
    if position >= |s| then []
    else if position + limit <= |s| then s[position..position + limit]
    else s[position..]
  }

  function PageOf(emails: Emails, listing: seq<EmailId>, q: Criteria, position: nat, limit: nat): QueryPage
    requires IsListing(emails, listing)
  {
    var threads := ThreadsOf(emails, Representatives(emails, listing, q));
    var order := Slice(threads, position, limit);
    QueryPage(order, |threads|, map t | t in order :: Members(emails, listing, t), position)
  }

  lemma {:induction false} MembersAppend(emails: Emails, some: seq<EmailId>, id: EmailId, thread: ThreadId)
    requires (forall x | x in some :: x in emails) && id in emails
    ensures Members(emails, some + [id], thread)
            == Members(emails, some, thread) + if emails[id].thread == thread then [id] else []
  {
    if some == [] {
      assert [id][1..] == [];
      assert some + [id] == [id];
    } else {
      var first := if emails[some[0]].thread == thread then [some[0]] else [];
      assert (some + [id])[0] == some[0] && (some + [id])[1..] == some[1..] + [id];
      MembersAppend(emails, some[1..], id, thread);
      var last := if emails[id].thread == thread then [id] else [];
      assert Members(emails, some + [id], thread) == first + Members(emails, some[1..] + [id], thread);
      assert first + (Members(emails, some[1..], thread) + last) == (first + Members(emails, some[1..], thread)) + last;
    }
  }

  /** The representatives on a page, and the threads they stand for. */
  lemma PageThreads(emails: Emails, listing: seq<EmailId>, q: Criteria, position: nat, limit: nat)
    requires IsListing(emails, listing)
    ensures
      var ids := Slice(Representatives(emails, listing, q), position, limit);
      && (forall id | id in ids :: id in emails)
      && PageOf(emails, listing, q, position, limit)
         == QueryPage(ThreadsOf(emails, ids), |Representatives(emails, listing, q)|,
                      map t | t in ThreadsOf(emails, ids) :: Members(emails, listing, t), position)
  {
    hide Members, Representatives, IsListing;
    var reps := Representatives(emails, listing, q);
    var ids := Slice(reps, position, limit);
    forall i | 0 <= i < |ids| ensures ids[i] in emails {
      assert reps[position + i] in reps;
    }
    assert ThreadsOf(emails, ids) == Slice(ThreadsOf(emails, reps), position, limit);
  }

  /** The thread order of a page, by way of the map the second call answers. */
  method ThreadOrder(server: Server, ids: seq<EmailId>) returns (order: seq<ThreadId>)
    requires forall id | id in ids :: id in server.emails
    ensures order == ThreadsOf(server.emails, ids)
  {
    var threadById := map id | id in ids :: server.emails[id].thread;
    order := [];
    for i := 0 to |ids|
      invariant |order| == i && forall j | 0 <= j < i :: order[j] == server.emails[ids[j]].thread
    {
      if ids[i] in threadById {
        order := order + [threadById[ids[i]]];
      }
    }
  }

  /** The chain behind `query_page` and `query_search`: the ids the query answers, the
      thread of each, and then every message of those threads, grouped by thread. */
  method Query(server: Server, q: Criteria, position: nat, limit: nat) returns (page: QueryPage)
    requires IsListing(server.emails, server.listing)
    ensures page == PageOf(server.emails, server.listing, q, position, limit)
  {
    var reps := Representatives(server.emails, server.listing, q);
    var ids := Slice(reps, position, limit);
    PageThreads(server.emails, server.listing, q, position, limit);
    hide Members, Representatives, IsListing, Slice, PageOf;
    var order := ThreadOrder(server, ids);
    forall t | t in order ensures exists id :: id in server.emails && server.emails[id].thread == t {
      var i :| 0 <= i < |order| && order[i] == t;
      assert ids[i] in ids;
    }
    var members := GroupByThread(server, order);
    page := QueryPage(order, |reps|, members, position);
  }

  /** The messages met so far, grouped: no entry for a thread not yet met. */
  ghost predicate Grouped(emails: Emails, met: seq<EmailId>, order: seq<ThreadId>, members: map<ThreadId, seq<EmailId>>)
    requires forall id | id in met :: id in emails
  {
    && (forall t :: t in members <==> t in order && Members(emails, met, t) != [])
    && (forall t | t in members :: members[t] == Members(emails, met, t))
  }

  lemma GroupedNothing(emails: Emails, order: seq<ThreadId>)
    ensures Grouped(emails, [], order, map[])
  {
  }

  lemma GroupOne(emails: Emails, met: seq<EmailId>, order: seq<ThreadId>, members: map<ThreadId, seq<EmailId>>, id: EmailId)
    requires (forall x | x in met :: x in emails) && id in emails && Grouped(emails, met, order, members)
    ensures
      var thread := emails[id].thread;
      Grouped(emails, met + [id], order,
              if thread in order then members[thread := (if thread in members then members[thread] else []) + [id]] else members)
  {
    hide Members;
    forall t ensures Members(emails, met + [id], t) == Members(emails, met, t) + if emails[id].thread == t then [id] else [] {
      MembersAppend(emails, met, id, t);
    }
  }

  lemma GroupedAll(emails: Emails, listing: seq<EmailId>, order: seq<ThreadId>, members: map<ThreadId, seq<EmailId>>)
    requires (forall id :: id in listing <==> id in emails) && Grouped(emails, listing, order, members)
    requires forall t | t in order :: exists id :: id in emails && emails[id].thread == t
    ensures members == map t | t in order :: Members(emails, listing, t)
  {
    hide Members;
    forall t | t in order ensures Members(emails, listing, t) != [] {
      var id :| id in emails && emails[id].thread == t;
      assert id in Members(emails, listing, t);
    }
  }

  method GroupByThread(server: Server, order: seq<ThreadId>) returns (members: map<ThreadId, seq<EmailId>>)
    requires IsListing(server.emails, server.listing)
    requires forall t | t in order :: exists id :: id in server.emails && server.emails[id].thread == t
    ensures members == map t | t in order :: Members(server.emails, server.listing, t)
  {
    hide IsListing, Members, Grouped;
    ListingKnown(server.emails, server.listing);
    members := map[];
    GroupedNothing(server.emails, order);
    for i := 0 to |server.listing|
      invariant Grouped(server.emails, server.listing[..i], order, members)
    {
      var id := server.listing[i];
      var thread := server.emails[id].thread;
      assert server.listing[..i + 1] == server.listing[..i] + [id];
      GroupOne(server.emails, server.listing[..i], order, members, id);
      if thread in order {
        members := members[thread := (if thread in members then members[thread] else []) + [id]];
      }
    }
    assert server.listing[..|server.listing|] == server.listing;
    GroupedAll(server.emails, server.listing, order, members);
  }

  lemma ListingKnown(emails: Emails, listing: seq<EmailId>)
    requires IsListing(emails, listing)
    ensures forall id :: id in listing <==> id in emails
  {
  }

  // ---------------------------------------------------------------- properties

  /** The threads with a matching message. */
  function MatchingThreads(emails: Emails, q: Criteria): set<ThreadId> {
    set id | id in emails && Meets(emails[id], q) :: emails[id].thread
  }

  predicate NewestFirst(emails: Emails, ids: seq<EmailId>)
    requires forall id | id in ids :: id in emails
  {
    forall i, j | 0 <= i < j < |ids| :: emails[ids[i]].receivedAt >= emails[ids[j]].receivedAt
  }

  lemma NewestHead(emails: Emails, ids: seq<EmailId>)
    requires ids != [] && (forall id | id in ids :: id in emails) && NewestFirst(emails, ids)
    ensures NewestFirst(emails, ids[1..])
    ensures forall id | id in ids[1..] :: emails[ids[0]].receivedAt >= emails[id].receivedAt
  {
    assert forall i | 0 <= i < |ids| - 1 :: ids[1..][i] == ids[i + 1];
  }

  lemma NewestCons(emails: Emails, head: EmailId, rest: seq<EmailId>)
    requires head in emails && (forall id | id in rest :: id in emails) && NewestFirst(emails, rest)
    requires forall id | id in rest :: emails[head].receivedAt >= emails[id].receivedAt
    ensures NewestFirst(emails, [head] + rest)
  {
    var all := [head] + rest;
    forall i, j | 0 <= i < j < |all| ensures emails[all[i]].receivedAt >= emails[all[j]].receivedAt {
      assert all[j] == rest[j - 1] && rest[j - 1] in rest;
    }
  }

  lemma {:induction false} MatchingSorted(emails: Emails, listing: seq<EmailId>, q: Criteria)
    requires (forall id | id in listing :: id in emails) && NewestFirst(emails, listing)
    ensures NewestFirst(emails, Matching(emails, listing, q))
  {
    if listing != [] {
      NewestHead(emails, listing);
      MatchingSorted(emails, listing[1..], q);
      hide NewestFirst, Meets;
      NewestCons(emails, listing[0], Matching(emails, listing[1..], q));
      assert [] + Matching(emails, listing[1..], q) == Matching(emails, listing[1..], q);
    }
  }

  /** Collapsing a newest-first list: one message per thread not seen before, newest
      first, and at least as new as any other message of its thread. */
  ghost predicate Collapses(emails: Emails, ids: seq<EmailId>, seen: set<ThreadId>, reps: seq<EmailId>)
    requires (forall id | id in ids :: id in emails) && forall id | id in reps :: id in emails
  {
    && NewestFirst(emails, reps)
    && (forall i | 0 <= i < |reps| :: emails[reps[i]].thread !in seen)
    && (forall i, j | 0 <= i < j < |reps| :: emails[reps[i]].thread != emails[reps[j]].thread)
    && (forall id | id in ids && emails[id].thread !in seen :: Represented(emails, reps, id))
  }

  ghost predicate Represented(emails: Emails, reps: seq<EmailId>, id: EmailId)
    requires id in emails && forall rep | rep in reps :: rep in emails
  {
    exists rep | rep in reps ::
      emails[rep].thread == emails[id].thread && emails[rep].receivedAt >= emails[id].receivedAt
  }

  lemma {:induction false} FirstPerThreadCollapses(emails: Emails, ids: seq<EmailId>, seen: set<ThreadId>)
    requires (forall id | id in ids :: id in emails) && NewestFirst(emails, ids)
    ensures Collapses(emails, ids, seen, FirstPerThread(emails, ids, seen))
  {
    hide Represented, Collapses;
    if ids == [] {
      assert Collapses(emails, [], seen, []) by {
        CollapsesNothing(emails, seen);
      }
    } else {
      var head, rest := ids[0], ids[1..];
      var thread := emails[head].thread;
      assert forall i | 0 <= i < |rest| :: rest[i] == ids[i + 1];
      assert ids == [head] + rest;
      if thread in seen {
        FirstPerThreadCollapses(emails, rest, seen);
        CollapsesSeen(emails, ids, seen, FirstPerThread(emails, rest, seen));
      } else {
        FirstPerThreadCollapses(emails, rest, seen + {thread});
        CollapsesCons(emails, ids, seen, FirstPerThread(emails, rest, seen + {thread}));
      }
    }
  }

  lemma CollapsesNothing(emails: Emails, seen: set<ThreadId>)
    ensures Collapses(emails, [], seen, [])
  {
  }

  lemma CollapsesSeen(emails: Emails, ids: seq<EmailId>, seen: set<ThreadId>, reps: seq<EmailId>)
    requires ids != [] && (forall id | id in ids :: id in emails) && forall id | id in reps :: id in emails
    requires emails[ids[0]].thread in seen && Collapses(emails, ids[1..], seen, reps)
    ensures Collapses(emails, ids, seen, reps)
  {
    hide Represented;
    assert ids == [ids[0]] + ids[1..];
  }

  lemma CollapsesCons(emails: Emails, ids: seq<EmailId>, seen: set<ThreadId>, later: seq<EmailId>)
    requires ids != [] && (forall id | id in ids :: id in emails) && NewestFirst(emails, ids)
    requires forall id | id in later :: id in ids[1..]
    requires emails[ids[0]].thread !in seen
    requires Collapses(emails, ids[1..], seen + {emails[ids[0]].thread}, later)
    ensures Collapses(emails, ids, seen, [ids[0]] + later)
  {
    hide Represented;
    var head, rest := ids[0], ids[1..];
    var thread := emails[head].thread;
    var reps := [head] + later;
    assert ids == [head] + rest;
    HeadNewest(emails, ids);
    forall i, j | 0 <= i < j < |reps|
      ensures emails[reps[i]].receivedAt >= emails[reps[j]].receivedAt && emails[reps[i]].thread != emails[reps[j]].thread
    {
      assert later[j - 1] in rest;
    }
    forall id | id in ids && emails[id].thread !in seen ensures Represented(emails, reps, id) {
      if emails[id].thread == thread {
        RepresentedBy(emails, reps, id, head);
      } else {
        assert id in rest && Represented(emails, later, id);
        RepresentedStill(emails, later, reps, id);
      }
    }
  }

  lemma HeadNewest(emails: Emails, ids: seq<EmailId>)
    requires ids != [] && (forall id | id in ids :: id in emails) && NewestFirst(emails, ids)
    ensures forall id | id in ids :: emails[ids[0]].receivedAt >= emails[id].receivedAt
  {
  }

  lemma RepresentedBy(emails: Emails, reps: seq<EmailId>, id: EmailId, rep: EmailId)
    requires id in emails && (forall r | r in reps :: r in emails) && rep in reps
    requires emails[rep].thread == emails[id].thread && emails[rep].receivedAt >= emails[id].receivedAt
    ensures Represented(emails, reps, id)
  {
  }

  lemma RepresentedStill(emails: Emails, some: seq<EmailId>, more: seq<EmailId>, id: EmailId)
    requires id in emails && (forall r | r in some :: r in more) && forall r | r in more :: r in emails
    requires Represented(emails, some, id)
    ensures Represented(emails, more, id)
  {
    var rep :| rep in some && emails[rep].thread == emails[id].thread && emails[rep].receivedAt >= emails[id].receivedAt;
    RepresentedBy(emails, more, id, rep);
  }

  /** The list a view pages through: each matching thread exactly once, each represented
      by its newest matching message, newest first. */
  lemma RepresentativesAre(emails: Emails, listing: seq<EmailId>, q: Criteria)
    requires IsListing(emails, listing)
    ensures
      var reps := Representatives(emails, listing, q);
      && NewestFirst(emails, reps)
      && Distinct(ThreadsOf(emails, reps))
      && (forall t :: t in ThreadsOf(emails, reps) <==> t in MatchingThreads(emails, q))
      && |reps| == |MatchingThreads(emails, q)|
      && (forall id | id in emails && Meets(emails[id], q) :: Represented(emails, reps, id))
  {
    var ids := Matching(emails, listing, q);
    var reps := Representatives(emails, listing, q);
    MatchingSorted(emails, listing, q);
    FirstPerThreadCollapses(emails, ids, {});
    var threads := ThreadsOf(emails, reps);
    forall t ensures t in threads <==> t in MatchingThreads(emails, q) {
      if t in threads {
        var i :| 0 <= i < |threads| && threads[i] == t;
        assert reps[i] in reps;
      }
      if t in MatchingThreads(emails, q) {
        var id :| id in emails && Meets(emails[id], q) && emails[id].thread == t;
        assert id in ids && Represented(emails, reps, id);
        var rep :| rep in reps && emails[rep].thread == t;
        var i :| 0 <= i < |reps| && reps[i] == rep;
        assert threads[i] == t;
      }
    }
    DistinctCount(threads, MatchingThreads(emails, q));
  }
}
