/** The compact payload an undo token carries: the ids once, a table of distinct mailbox
    ids, a table of distinct placements as index lists into it, and one small number per
    message. */
module UndoCodec {
  import opened Wrappers
  import opened MailStore
  import opened Actions

  const NO_PLACEMENT: int := -1

  datatype Payload = Payload(
    kind: Kind,
    ids: seq<EmailId>,
    mailboxes: seq<MailboxId>,
    groups: seq<seq<int>>,
    placement: Option<seq<int>>,
    rider: Rider,
    expires: int,
    scope: Option<string>)

  /** What `_decode` hands back. */
  datatype Decoded = Decoded(spec: UndoSpec, expires: int, scope: Option<string>)

  // ------------------------------------------------------------------ encoding

  /** Where an entry is in an insertion-ordered table, adding it at the end if it is new:
      `setdefault(key, len(table))`. */
  method Intern<T(==)>(table: seq<T>, entry: T) returns (grown: seq<T>, at: nat)
    requires Distinct(table)
    ensures Distinct(grown) && table <= grown
    ensures at < |grown| && grown[at] == entry
    ensures grown == if entry in table then table else table + [entry]
  {
    grown, at := table, 0;
    while at < |table|
      invariant 0 <= at <= |table|
      invariant entry !in table[..at]
    {
      if table[at] == entry {
        return;
      }
      assert table[..at + 1] == table[..at] + [table[at]];
      at := at + 1;
    }
    assert table[..|table|] == table;
    grown := table + [entry];
  }

  /** The mailbox ids an index list stands for. */
  ghost predicate Spells(group: seq<int>, mailboxes: seq<MailboxId>, placed: seq<MailboxId>) {
    |group| == |placed| &&
    forall k | 0 <= k < |group| :: 0 <= group[k] < |mailboxes| && mailboxes[group[k]] == placed[k]
  }

  method InternAll(table: seq<MailboxId>, placed: seq<MailboxId>) returns (grown: seq<MailboxId>, group: seq<int>)
    requires Distinct(table)
    ensures Distinct(grown) && table <= grown && Spells(group, grown, placed)
    ensures forall m | m in grown :: m in table || m in placed
  {
    grown, group := table, [];
    var k := 0;
    while k < |placed|
      invariant 0 <= k <= |placed|
      invariant Distinct(grown) && table <= grown && Spells(group, grown, placed[..k])
      invariant forall m | m in grown :: m in table || m in placed
    {
      var next, at := Intern(grown, placed[k]);
      assert placed[..k + 1] == placed[..k] + [placed[k]];
      grown, group, k := next, group + [at], k + 1;
    }
    assert placed[..k] == placed;
  }

  /** Message `i` is encoded right: no number if it has no recorded placement, otherwise
      the number of the group that spells it. */
  ghost predicate Encoded(spec: UndoSpec, i: nat, mailboxes: seq<MailboxId>, groups: seq<seq<int>>, slot: int)
    requires i < |spec.emailIds|
  {
    if spec.emailIds[i] in spec.prev then
      0 <= slot < |groups| && Spells(groups[slot], mailboxes, spec.prev[spec.emailIds[i]])
    else slot == -1
  }

  /** The tables hold no entry twice and every index in them is in range. */
  ghost predicate Tidy(mailboxes: seq<MailboxId>, groups: seq<seq<int>>) {
    && Distinct(mailboxes) && Distinct(groups)
    && forall g, k | 0 <= g < |groups| && 0 <= k < |groups[g]| :: 0 <= groups[g][k] < |mailboxes|
  }

  /** A payload that stands for a spec. */
  ghost predicate Represents(p: Payload, spec: UndoSpec, expires: int, scope: Option<string>) {
    && p.kind == spec.kind && p.ids == spec.emailIds && p.rider == spec.rider
    && p.expires == expires && p.scope == scope
    && Tidy(p.mailboxes, p.groups)
    && (p.placement.None? <==> spec.prev == map[])
    && (p.placement.Some? ==>
          && |p.placement.value| == |p.ids|
          && forall i | 0 <= i < |p.ids| :: Encoded(spec, i, p.mailboxes, p.groups, p.placement.value[i]))
  }

  ghost predicate PlacedIn(spec: UndoSpec, m: MailboxId) {
    exists id :: id in spec.emailIds && id in spec.prev && m in spec.prev[id]
  }

  /** The first so many messages encoded, and in the tables nothing but what they need. */
  ghost predicate SoFar(spec: UndoSpec, mailboxes: seq<MailboxId>, groups: seq<seq<int>>, placement: seq<int>) {
    && |placement| <= |spec.emailIds| && Tidy(mailboxes, groups)
    && (forall j | 0 <= j < |placement| :: Encoded(spec, j, mailboxes, groups, placement[j]))
    && (forall m | m in mailboxes :: PlacedIn(spec, m))
  }

  lemma NothingSoFar(spec: UndoSpec)
    ensures SoFar(spec, [], [], [])
  {
  }

  lemma Unplaced(spec: UndoSpec, mailboxes: seq<MailboxId>, groups: seq<seq<int>>, placement: seq<int>)
    requires SoFar(spec, mailboxes, groups, placement) && |placement| < |spec.emailIds|
    requires spec.emailIds[|placement|] !in spec.prev
    ensures SoFar(spec, mailboxes, groups, placement + [-1])
  {
    hide Tidy;
  }

  /** What is encoded stays so as the tables grow. */
  lemma EncodedLater(spec: UndoSpec, j: nat, mailboxes: seq<MailboxId>, groups: seq<seq<int>>, slot: int, table: seq<MailboxId>, grown: seq<seq<int>>)
    requires j < |spec.emailIds| && Encoded(spec, j, mailboxes, groups, slot) && mailboxes <= table && groups <= grown
    ensures Encoded(spec, j, table, grown, slot)
  {
  }

  lemma TidyLater(mailboxes: seq<MailboxId>, groups: seq<seq<int>>, table: seq<MailboxId>, group: seq<int>, placed: seq<MailboxId>, grown: seq<seq<int>>)
    requires Tidy(mailboxes, groups) && mailboxes <= table && Distinct(table) && Distinct(grown)
    requires Spells(group, table, placed) && grown == if group in groups then groups else groups + [group]
    ensures Tidy(table, grown)
  {
  }

  lemma Stored(spec: UndoSpec, mailboxes: seq<MailboxId>, groups: seq<seq<int>>, placement: seq<int>, table: seq<MailboxId>, group: seq<int>, grown: seq<seq<int>>, at: nat)
    requires SoFar(spec, mailboxes, groups, placement) && |placement| < |spec.emailIds|
    requires var id := spec.emailIds[|placement|]; id in spec.prev && Spells(group, table, spec.prev[id]) && forall m | m in table :: m in mailboxes || m in spec.prev[id]
    requires mailboxes <= table && Distinct(table)
    requires Distinct(grown) && groups <= grown && at < |grown| && grown[at] == group
    requires grown == if group in groups then groups else groups + [group]
    ensures SoFar(spec, table, grown, placement + [at])
  {
    var id := spec.emailIds[|placement|];
    TidyLater(mailboxes, groups, table, group, spec.prev[id], grown);
    assert Encoded(spec, |placement|, table, grown, at);
    forall j | 0 <= j < |placement| ensures Encoded(spec, j, table, grown, placement[j]) {
      EncodedLater(spec, j, mailboxes, groups, placement[j], table, grown);
    }
    hide Encoded, Tidy, Spells, Distinct;
    forall m | m in table ensures PlacedIn(spec, m) {
      assert id in spec.emailIds;
    }
  }

  /** `_encode`. */
  method Encode(spec: UndoSpec, expires: int, scope: Option<string>) returns (p: Payload)
    ensures Represents(p, spec, expires, scope)
    ensures forall m | m in p.mailboxes :: PlacedIn(spec, m)
  {
    hide Spells, Encoded, Tidy, SoFar, PlacedIn;
    NothingSoFar(spec);
    var mailboxes: seq<MailboxId> := [];
    var groups: seq<seq<int>> := [];
    var placement: seq<int> := [];
    while |placement| < |spec.emailIds|
      invariant |placement| <= |spec.emailIds| && SoFar(spec, mailboxes, groups, placement)
    {
      var id := spec.emailIds[|placement|];
      TablesDistinct(spec, mailboxes, groups, placement);
      if id in spec.prev {
        var table, group := InternAll(mailboxes, spec.prev[id]);
        var grown, at := Intern(groups, group);
        Stored(spec, mailboxes, groups, placement, table, group, grown, at);
        mailboxes, groups, placement := table, grown, placement + [at];
      } else {
        Unplaced(spec, mailboxes, groups, placement);
        placement := placement + [NO_PLACEMENT];
      }
    }
    SoFarAll(spec, mailboxes, groups, placement);
    p := Payload(spec.kind, spec.emailIds, mailboxes, groups,
                 if spec.prev == map[] then None else Some(placement), spec.rider, expires, scope);
  }

  lemma TablesDistinct(spec: UndoSpec, mailboxes: seq<MailboxId>, groups: seq<seq<int>>, placement: seq<int>)
    requires SoFar(spec, mailboxes, groups, placement)
    ensures Distinct(mailboxes) && Distinct(groups)
  {
  }

  lemma SoFarAll(spec: UndoSpec, mailboxes: seq<MailboxId>, groups: seq<seq<int>>, placement: seq<int>)
    requires SoFar(spec, mailboxes, groups, placement)
    ensures Tidy(mailboxes, groups)
    ensures forall j | 0 <= j < |placement| :: j < |spec.emailIds| && Encoded(spec, j, mailboxes, groups, placement[j])
    ensures forall m | m in mailboxes :: PlacedIn(spec, m)
  {
  }

  // ------------------------------------------------------------------ decoding

  /** Python's indexing, where a small negative index counts from the end. */
  function At<T>(s: seq<T>, i: int): Option<T> {
    if 0 <= i < |s| then Some(s[i])
    else if -|s| <= i < 0 then Some(s[|s| + i])
    else None
  }

  function Lookup(mailboxes: seq<MailboxId>, group: seq<int>): Option<seq<MailboxId>> {
    if group == [] then Some([])
    else
      match (At(mailboxes, group[0]), Lookup(mailboxes, group[1..]))
      case (Some(first), Some(rest)) => Some([first] + rest)
      case _ => None
  }

  function LookupAll(mailboxes: seq<MailboxId>, groups: seq<seq<int>>): Option<seq<seq<MailboxId>>> {
    if groups == [] then Some([])
    else
      match (Lookup(mailboxes, groups[0]), LookupAll(mailboxes, groups[1..]))
      case (Some(first), Some(rest)) => Some([first] + rest)
      case _ => None
  }

  /** The `prev` built by walking ids and placements together, a later repeat of an id
      overwriting an earlier one. */
  function PrevFrom(ids: seq<EmailId>, placement: seq<int>, groups: seq<seq<MailboxId>>): (r: Option<map<EmailId, seq<MailboxId>>>)
    requires |ids| == |placement|
  {
    if ids == [] then Some(map[])
    else
      var n := |ids| - 1;
      match PrevFrom(ids[..n], placement[..n], groups)
      case None => None
      case Some(prev) =>
        if placement[n] == NO_PLACEMENT then Some(prev)
        else
          match At(groups, placement[n])
          case None => None
          case Some(placed) => Some(prev[ids[n] := placed])
  }

  lemma AtIs<T>(s: seq<T>, i: int)
    ensures At(s, i).Some? <==> -|s| <= i < |s|
    ensures 0 <= i < |s| ==> At(s, i) == Some(s[i])
    ensures 0 < -i <= |s| ==> At(s, i) == Some(s[|s| - -i])
  {
  }

  lemma {:induction false} LookupIs(mailboxes: seq<MailboxId>, group: seq<int>)
    ensures Lookup(mailboxes, group).Some? <==> forall k | 0 <= k < |group| :: At(mailboxes, group[k]).Some?
    ensures Lookup(mailboxes, group).Some? ==>
              var placed := Lookup(mailboxes, group).value;
              |placed| == |group| && forall k | 0 <= k < |group| :: At(mailboxes, group[k]) == Some(placed[k])
  {
    hide At;
    if group != [] {
      var rest := group[1..];
      assert forall k | 0 <= k < |rest| :: rest[k] == group[k + 1];
      LookupIs(mailboxes, rest);
    }
  }

  lemma {:induction false} LookupAllIs(mailboxes: seq<MailboxId>, groups: seq<seq<int>>)
    ensures LookupAll(mailboxes, groups).Some? <==> forall g | 0 <= g < |groups| :: Lookup(mailboxes, groups[g]).Some?
    ensures LookupAll(mailboxes, groups).Some? ==>
              var all := LookupAll(mailboxes, groups).value;
              |all| == |groups| && forall g | 0 <= g < |groups| :: Lookup(mailboxes, groups[g]) == Some(all[g])
  {
    hide Lookup;
    if groups != [] {
      var rest := groups[1..];
      assert forall k | 0 <= k < |rest| :: rest[k] == groups[k + 1];
      LookupAllIs(mailboxes, rest);
    }
  }

  /** An id that comes again later with a placement: that one counts. */
  predicate Overwritten(ids: seq<EmailId>, placement: seq<int>, k: nat)
    requires |ids| == |placement| && k < |ids|
  {
    exists l | k < l < |ids| :: ids[l] == ids[k] && placement[l] != -1
  }

  lemma {:induction false} PrevFromIs(ids: seq<EmailId>, placement: seq<int>, groups: seq<seq<MailboxId>>)
    requires |ids| == |placement|
    ensures PrevFrom(ids, placement, groups).Some? <==>
              forall k | 0 <= k < |placement| :: placement[k] == -1 || At(groups, placement[k]).Some?
    ensures PrevFrom(ids, placement, groups).Some? ==>
              var prev := PrevFrom(ids, placement, groups).value;
              && (forall id | id in prev :: exists k | 0 <= k < |ids| :: ids[k] == id && placement[k] != -1)
              && (forall k | 0 <= k < |ids| && placement[k] != -1 && !Overwritten(ids, placement, k) ::
                    ids[k] in prev && At(groups, placement[k]) == Some(prev[ids[k]]))
  {
    hide At;
    if ids != [] {
      var n := |ids| - 1;
      var front, slots := ids[..n], placement[..n];
      PrevFromIs(front, slots, groups);
      forall k | 0 <= k < n ensures ids[k] == front[k] && placement[k] == slots[k] && (Overwritten(front, slots, k) ==> Overwritten(ids, placement, k)) {
        if Overwritten(front, slots, k) {
          var l :| k < l < n && front[l] == front[k] && slots[l] != -1;
          assert ids[l] == ids[k] && placement[l] != -1;
        }
      }
    }
  }

  /** A payload is rejected exactly when a group names a mailbox out of range, a message a
      group out of range, or the messages and their groups are not as many. */
  lemma RejectedExactly(p: Payload)
    ensures DecodeOf(p).Some? <==>
              && (forall g, k | 0 <= g < |p.groups| && 0 <= k < |p.groups[g]| :: -|p.mailboxes| <= p.groups[g][k] < |p.mailboxes|)
              && (p.placement.Some? ==>
                    && |p.placement.value| == |p.ids|
                    && forall k | 0 <= k < |p.ids| :: p.placement.value[k] == -1 || -|p.groups| <= p.placement.value[k] < |p.groups|)
    ensures DecodeOf(p).Some? ==>
              var d := DecodeOf(p).value;
              d.expires == p.expires && d.scope == p.scope && d.spec == UndoSpec(p.kind, p.ids, d.spec.prev, p.rider)
  {
    hide Lookup, LookupAll, PrevFrom;
    LookupAllIs(p.mailboxes, p.groups);
    forall g | 0 <= g < |p.groups|
      ensures Lookup(p.mailboxes, p.groups[g]).Some? <==> forall k | 0 <= k < |p.groups[g]| :: -|p.mailboxes| <= p.groups[g][k] < |p.mailboxes|
    {
      LookupIs(p.mailboxes, p.groups[g]);
    }
    var groups := LookupAll(p.mailboxes, p.groups);
    if groups.Some? && p.placement.Some? && |p.placement.value| == |p.ids| {
      PrevFromIs(p.ids, p.placement.value, groups.value);
    }
  }

  /** What a payload decodes to, or `None` where `_decode` raises: an index out of range,
      or a placement list of the wrong length. */
  function DecodeOf(p: Payload): Option<Decoded> {
    match LookupAll(p.mailboxes, p.groups)
    case None => None
    case Some(groups) =>
      match p.placement
      case None => Some(Decoded(UndoSpec(p.kind, p.ids, map[], p.rider), p.expires, p.scope))
      case Some(placement) =>
        if |placement| != |p.ids| then None
        else
          match PrevFrom(p.ids, placement, groups)
          case None => None
          case Some(prev) => Some(Decoded(UndoSpec(p.kind, p.ids, prev, p.rider), p.expires, p.scope))
  }

  /** `_decode`. */
  method Decode(p: Payload) returns (r: Option<Decoded>)
    ensures r == DecodeOf(p)
  {
    var groups := LookupAll(p.mailboxes, p.groups);
    if groups.None? {
      return None;
    }
    var prev: map<EmailId, seq<MailboxId>> := map[];
    if p.placement.Some? {
      var placement := p.placement.value;
      if |placement| != |p.ids| {
        return None;
      }
      var i := 0;
      while i < |p.ids|
        invariant 0 <= i <= |p.ids|
        invariant PrevFrom(p.ids[..i], placement[..i], groups.value) == Some(prev)
      {
        assert p.ids[..i + 1][..i] == p.ids[..i] && placement[..i + 1][..i] == placement[..i];
        if placement[i] != NO_PLACEMENT {
          var placed := At(groups.value, placement[i]);
          if placed.None? {
            assert PrevFrom(p.ids[..i + 1], placement[..i + 1], groups.value).None?;
            FailureStays(p.ids, placement, groups.value, i + 1, |p.ids|);
            assert p.ids[..|p.ids|] == p.ids && placement[..|p.ids|] == placement;
            return None;
          }
          prev := prev[p.ids[i] := placed.value];
        }
        i := i + 1;
      }
      assert p.ids[..i] == p.ids && placement[..i] == placement;
    }
    r := Some(Decoded(UndoSpec(p.kind, p.ids, prev, p.rider), p.expires, p.scope));
  }

  lemma {:induction false} FailureStays(ids: seq<EmailId>, placement: seq<int>, groups: seq<seq<MailboxId>>, i: nat, n: nat)
    requires |ids| == |placement| && i <= n <= |ids|
    requires PrevFrom(ids[..i], placement[..i], groups).None?
    ensures PrevFrom(ids[..n], placement[..n], groups).None?
    decreases n
  {
    if i < n {
      FailureStays(ids, placement, groups, i, n - 1);
      assert ids[..n][..n - 1] == ids[..n - 1] && placement[..n][..n - 1] == placement[..n - 1];
    }
  }

  // ---------------------------------------------------------------- round trip

  /** A spec's recorded placements, for the messages it lists. */
  function Restricted(spec: UndoSpec): UndoSpec {
    spec.(prev := Recorded(spec.prev, spec.emailIds))
  }

  lemma {:induction false} LookupSpells(mailboxes: seq<MailboxId>, group: seq<int>, placed: seq<MailboxId>)
    requires Spells(group, mailboxes, placed)
    ensures Lookup(mailboxes, group) == Some(placed)
  {
    if group != [] {
      assert mailboxes[group[0]] == placed[0];
      assert Spells(group[1..], mailboxes, placed[1..]);
      LookupSpells(mailboxes, group[1..], placed[1..]);
      assert placed == [placed[0]] + placed[1..];
    }
  }

  lemma {:induction false} LookupAllSucceeds(mailboxes: seq<MailboxId>, groups: seq<seq<int>>)
    requires forall g, k | 0 <= g < |groups| && 0 <= k < |groups[g]| :: 0 <= groups[g][k] < |mailboxes|
    ensures
      var r := LookupAll(mailboxes, groups);
      r.Some? && |r.value| == |groups| && forall g | 0 <= g < |groups| :: Some(r.value[g]) == Lookup(mailboxes, groups[g])
  {
    if groups != [] {
      var placed := seq(|groups[0]|, k requires 0 <= k < |groups[0]| => mailboxes[groups[0][k]]);
      LookupSpells(mailboxes, groups[0], placed);
      assert forall g, k | 0 <= g < |groups[1..]| && 0 <= k < |groups[1..][g]| :: groups[1..][g][k] == groups[g + 1][k];
      LookupAllSucceeds(mailboxes, groups[1..]);
      var r := LookupAll(mailboxes, groups).value;
      forall g | 0 <= g < |groups| ensures Some(r[g]) == Lookup(mailboxes, groups[g]) {
        if g > 0 {
          assert groups[g] == groups[1..][g - 1];
        }
      }
    }
  }

  /** The placements recorded for some of the messages. */
  function Recorded(prev: map<EmailId, seq<MailboxId>>, ids: seq<EmailId>): map<EmailId, seq<MailboxId>> {
    map id | id in prev && id in ids :: prev[id]
  }

  lemma RecordedStep(prev: map<EmailId, seq<MailboxId>>, ids: seq<EmailId>, id: EmailId)
    ensures Recorded(prev, ids + [id])
         == if id in prev then Recorded(prev, ids)[id := prev[id]] else Recorded(prev, ids)
  {
  }

  lemma {:induction false} PrevFromEncoded(spec: UndoSpec, p: Payload, groups: seq<seq<MailboxId>>, n: nat)
    requires Represents(p, spec, p.expires, p.scope) && p.placement.Some? && n <= |p.ids|
    requires |groups| == |p.groups| && forall g | 0 <= g < |groups| :: Some(groups[g]) == Lookup(p.mailboxes, p.groups[g])
    ensures PrevFrom(p.ids[..n], p.placement.value[..n], groups) == Some(Recorded(spec.prev, p.ids[..n]))
    decreases n
  {
    hide Recorded, Tidy, Lookup, Spells;
    var placement := p.placement.value;
    if n == 0 {
      assert Recorded(spec.prev, []) == map[] by {
        RecordedNone(spec.prev);
      }
    } else {
      var id, slot := p.ids[n - 1], placement[n - 1];
      PrevFromEncoded(spec, p, groups, n - 1);
      assert p.ids[..n][..n - 1] == p.ids[..n - 1] && placement[..n][..n - 1] == placement[..n - 1];
      assert p.ids[..n] == p.ids[..n - 1] + [id];
      RecordedStep(spec.prev, p.ids[..n - 1], id);
      assert Encoded(spec, n - 1, p.mailboxes, p.groups, slot);
      if id in spec.prev {
        LookupSpells(p.mailboxes, p.groups[slot], spec.prev[id]);
      }
    }
  }

  lemma RecordedNone(prev: map<EmailId, seq<MailboxId>>)
    ensures Recorded(prev, []) == map[]
  {
  }

  /** Whatever the ids and placements repeat, what is decoded is what was encoded: the
      spec with its placements for the messages it lists, the expiry and the scope. */
  lemma RoundTrip(p: Payload, spec: UndoSpec, expires: int, scope: Option<string>)
    requires Represents(p, spec, expires, scope)
    ensures DecodeOf(p) == Some(Decoded(Restricted(spec), expires, scope))
  {
    LookupAllSucceeds(p.mailboxes, p.groups);
    var groups := LookupAll(p.mailboxes, p.groups).value;
    if p.placement.Some? {
      PrevFromEncoded(spec, p, groups, |p.ids|);
      assert p.ids[..|p.ids|] == p.ids && p.placement.value[..|p.ids|] == p.placement.value;
    } else {
      assert Recorded(spec.prev, spec.emailIds) == map[];
    }
  }

  /** An action's own spec lists every message it recorded, so it comes back unchanged. */
  lemma ActionSpecsUnrestricted(changes: seq<Change>, spec: UndoSpec)
    requires OnePerMessage(changes)
    requires spec.emailIds == IdsOf(Acted(changes)) && spec.prev == PrevOf(changes)
    ensures Restricted(spec) == spec
  {
    hide PrevOf, Recorded;
    RecordedAll(spec.prev, spec.emailIds) by {
      PrevListed(changes);
    }
  }

  lemma RecordedAll(prev: map<EmailId, seq<MailboxId>>, ids: seq<EmailId>)
    requires forall id | id in prev :: id in ids
    ensures Recorded(prev, ids) == prev
  {
  }

  lemma PrevListed(changes: seq<Change>)
    requires OnePerMessage(changes)
    ensures forall id | id in PrevOf(changes) :: id in IdsOf(Acted(changes))
  {
    hide PrevOf;
    forall id | id in PrevOf(changes) ensures id in IdsOf(Acted(changes)) {
      var c :| c in changes && c.Moved() && c.before.id == id;
      assert c in Acted(changes);
    }
  }
}
