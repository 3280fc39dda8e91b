/** The label forest of the sidebar: nesting the mailboxes without a role by parent, sorted
    at every level, and reading a thread's chips off it. */
module LabelTree {
  import opened Wrappers
  import opened MailStore
  import Strings

  /** A mailbox as the server lists it, with whether the label settings let it be seen. */
  datatype Label = Label(id: MailboxId, name: string, parent: Option<MailboxId>, shown: bool)

  datatype LabelNode = LabelNode(id: MailboxId, name: string, children: seq<LabelNode>)

  type Nodes = map<MailboxId, Label>

  // ---------------------------------------------------------- where a label hangs

  predicate OneEach(labels: seq<Label>) {
    forall i, j | 0 <= i < j < |labels| :: labels[i].id != labels[j].id
  }

  /** The labels that get a node: hidden ones do not. */
  function NodesOf(labels: seq<Label>): (nodes: Nodes)
    ensures forall id | id in nodes :: nodes[id] in labels && nodes[id].id == id && nodes[id].shown
    ensures OneEach(labels) ==> forall l | l in labels && l.shown :: l.id in nodes && nodes[l.id] == l
  {
    if labels == [] then map[]
    else
      var front, last := labels[..|labels| - 1], labels[|labels| - 1];
      assert labels == front + [last];
      if last.shown then NodesOf(front)[last.id := last] else NodesOf(front)
  }

  /** A label hangs under its parent if that has a node, and at the top otherwise. */
  function Above(nodes: Nodes, l: Label): Option<MailboxId> {
    if l.parent.Some? && l.parent.value in nodes then l.parent else None
  }

  /** The shown labels that hang from `parent`, in the server's order. */
  function Hanging(nodes: Nodes, labels: seq<Label>, parent: Option<MailboxId>): (ids: seq<MailboxId>)
    ensures forall id | id in ids :: exists l :: l in labels && l.id == id
  {
    if labels == [] then []
    else
      var front, last := labels[..|labels| - 1], labels[|labels| - 1];
      assert labels == front + [last];
      Hanging(nodes, front, parent) + if last.shown && Above(nodes, last) == parent then [last.id] else []
  }

  lemma {:induction false} HangingAre(nodes: Nodes, labels: seq<Label>, parent: Option<MailboxId>)
    requires OneEach(labels)
    ensures Distinct(Hanging(nodes, labels, parent))
    ensures forall l | l in labels :: l.id in Hanging(nodes, labels, parent) <==> l.shown && Above(nodes, l) == parent
  {
    if labels != [] {
      var front, last := labels[..|labels| - 1], labels[|labels| - 1];
      assert labels == front + [last];
      HangingAre(nodes, front, parent);
      forall l | l in front ensures l.id != last.id {
        var i :| 0 <= i < |front| && front[i] == l;
        assert labels[i].id != labels[|labels| - 1].id;
      }
      assert last.id !in Hanging(nodes, front, parent);
    }
  }

  // ------------------------------------------------------------ sorting by name

  /** Character by character, a shorter name before its extensions. */
  predicate AtMost(a: string, b: string) {
    a == "" || (b != "" && (a[0] < b[0] || (a[0] == b[0] && AtMost(a[1..], b[1..]))))
  }

  lemma {:induction false} AtMostOrders(a: string, b: string, c: string)
    ensures AtMost(a, b) || AtMost(b, a)
    ensures AtMost(a, b) && AtMost(b, c) ==> AtMost(a, c)
  {
    if a != "" && b != "" {
      AtMostOrders(a[1..], b[1..], if c == "" then "" else c[1..]);
    }
  }

  function Key(nodes: Nodes, id: MailboxId): string {
    if id in nodes then Strings.Lower(nodes[id].name) else ""
  }

  predicate ByName(nodes: Nodes, ids: seq<MailboxId>) {
    forall i, j | 0 <= i < j < |ids| :: AtMost(Key(nodes, ids[i]), Key(nodes, ids[j]))
  }

  /** Into its place, after any label of the same name. */
  function Place(nodes: Nodes, sorted: seq<MailboxId>, id: MailboxId): (r: seq<MailboxId>)
    ensures multiset(r) == multiset(sorted) + multiset{id}
  {
    if sorted == [] then [id]
    else if !AtMost(Key(nodes, sorted[0]), Key(nodes, id)) then [id] + sorted
    else
      assert sorted == [sorted[0]] + sorted[1..];
      [sorted[0]] + Place(nodes, sorted[1..], id)
  }

  /** In the order of the alphabet, whatever the capitals: alike up to somewhere, and there
      the one has ended or has the earlier letter. */
  predicate Alphabetical(a: string, b: string) {
    || (|a| <= |b| && Strings.SameLetters(a, b[..|a|]))
    || exists k | 0 <= k < |a| && k < |b| :: Strings.SameLetters(a[..k], b[..k]) && Small(a[k]) < Small(b[k])
  }

  function Small(c: char): int {
    c as int + if 'A' <= c <= 'Z' then 32 else 0
  }

  lemma {:induction false} AlphabeticalIs(a: string, b: string)
    ensures AtMost(Strings.Lower(a), Strings.Lower(b)) <==> Alphabetical(a, b)
  {
    hide Strings.SameLetters;
    if a == "" {
      Strings.LowerSame(a, b[..0]);
    } else if b == "" {
    } else {
      AlphabeticalIs(a[1..], b[1..]);
      AlphabeticalStep(a, b);
      SmallIs(a[0], b[0]);
      SmallIs(b[0], a[0]);
    }
  }

  lemma AlphabeticalStep(a: string, b: string)
    requires a != "" && b != ""
    ensures Alphabetical(a, b) <==> Small(a[0]) < Small(b[0]) || (Small(a[0]) == Small(b[0]) && Alphabetical(a[1..], b[1..]))
  {
    hide Strings.SameLetters, Small;
    var x, y := a[1..], b[1..];
    SmallIs(a[0], b[0]);
    if |a| <= |b| {
      Strings.SameLettersStep(a, b[..|a|]);
      assert b[..|a|][1..] == y[..|x|];
    }
    assert a[..0] == b[..0] == "";
    Strings.LowerSame("", "");
    forall k | 0 < k < |a| && k < |b|
      ensures Strings.SameLetters(a[..k], b[..k]) <==> Small(a[0]) == Small(b[0]) && Strings.SameLetters(x[..k - 1], y[..k - 1])
    {
      Strings.SameLettersStep(a[..k], b[..k]);
      assert a[..k][1..] == x[..k - 1] && b[..k][1..] == y[..k - 1];
    }
    if k :| 0 <= k < |x| && k < |y| && Strings.SameLetters(x[..k], y[..k]) && Small(x[k]) < Small(y[k]) {
      assert a[k + 1] == x[k] && b[k + 1] == y[k];
      assert Small(a[0]) == Small(b[0]) ==> Strings.SameLetters(a[..k + 1], b[..k + 1]);
    }
    if k :| 0 < k < |a| && k < |b| && Strings.SameLetters(a[..k], b[..k]) && Small(a[k]) < Small(b[k]) {
      assert a[k] == x[k - 1] && b[k] == y[k - 1];
    }
  }

  lemma SmallIs(a: char, b: char)
    ensures Small(a) == Small(b) <==> Strings.SameLetter(a, b)
    ensures Small(a) == Strings.LowerChar(a) as int
  {
    Strings.CapitalIs(a, b);
    Strings.CapitalIs(b, a);
  }

  lemma FirstByName(nodes: Nodes, first: MailboxId, rest: seq<MailboxId>)
    requires ByName(nodes, rest)
    requires forall id | id in rest :: AtMost(Key(nodes, first), Key(nodes, id))
    ensures ByName(nodes, [first] + rest)
  {
    hide AtMost, Key;
    var all := [first] + rest;
    forall i, j | 0 <= i < j < |all| ensures AtMost(Key(nodes, all[i]), Key(nodes, all[j])) {
      assert all[j] == rest[j - 1] && all[j] in rest;
      assert i == 0 || all[i] == rest[i - 1];
    }
  }

  lemma {:induction false} PlaceKeepsOrder(nodes: Nodes, sorted: seq<MailboxId>, id: MailboxId)
    requires ByName(nodes, sorted)
    ensures ByName(nodes, Place(nodes, sorted, id))
  {
    hide AtMost, Key;
    if sorted == [] {
    } else if AtMost(Key(nodes, sorted[0]), Key(nodes, id)) {
      var first, rest := sorted[0], sorted[1..];
      PlaceKeepsOrder(nodes, rest, id);
      var r := Place(nodes, rest, id);
      forall x | x in r ensures AtMost(Key(nodes, first), Key(nodes, x)) {
        assert x in multiset(rest) + multiset{id};
        if x in rest {
          var i :| 0 <= i < |rest| && rest[i] == x;
          assert sorted[i + 1] == x;
        }
      }
      FirstByName(nodes, first, r);
    } else {
      forall x | x in sorted ensures AtMost(Key(nodes, id), Key(nodes, x)) {
        var i :| 0 <= i < |sorted| && sorted[i] == x;
        AtMostOrders(Key(nodes, sorted[0]), Key(nodes, id), "");
        AtMostOrders(Key(nodes, id), Key(nodes, sorted[0]), Key(nodes, x));
        assert i == 0 || AtMost(Key(nodes, sorted[0]), Key(nodes, sorted[i]));
      }
      FirstByName(nodes, id, sorted);
    }
  }

  /** `level.sort(key=lambda n: n.name.lower())`. */
  function Sorted(nodes: Nodes, ids: seq<MailboxId>): (r: seq<MailboxId>)
    ensures ByName(nodes, r) && multiset(r) == multiset(ids)
  {
    if ids == [] then []
    else
      var front, last := ids[..|ids| - 1], ids[|ids| - 1];
      assert ids == front + [last];
      PlaceKeepsOrder(nodes, Sorted(nodes, front), last);
      Place(nodes, Sorted(nodes, front), last)
  }

  lemma {:induction false} PlaceLast(nodes: Nodes, sorted: seq<MailboxId>, id: MailboxId)
    requires ByName(nodes, sorted + [id])
    ensures Place(nodes, sorted, id) == sorted + [id]
  {
    if sorted != [] {
      var all, rest := sorted + [id], sorted[1..];
      assert all[0] == sorted[0] && all[|sorted|] == id;
      assert rest + [id] == all[1..];
      PlaceLast(nodes, rest, id);
    }
  }

  /** Sorting what is sorted changes nothing. */
  lemma {:induction false} SortedAlready(nodes: Nodes, ids: seq<MailboxId>)
    requires ByName(nodes, ids)
    ensures Sorted(nodes, ids) == ids
  {
    if ids != [] {
      var front, last := ids[..|ids| - 1], ids[|ids| - 1];
      assert ids == front + [last];
      SortedAlready(nodes, front);
      PlaceLast(nodes, front, last);
    }
  }

  lemma SortedMembers(nodes: Nodes, ids: seq<MailboxId>)
    ensures forall id :: id in Sorted(nodes, ids) <==> id in ids
    ensures Distinct(ids) ==> Distinct(Sorted(nodes, ids))
  {
    hide Sorted, ByName;
    var r := Sorted(nodes, ids);
    forall id ensures id in r <==> id in ids {
      assert id in r <==> id in multiset(r);
    }
    if Distinct(ids) {
      DistinctMultiset(ids);
      DistinctFromMultiset(r);
    }
  }

  lemma {:induction false} DistinctMultiset(ids: seq<MailboxId>)
    requires Distinct(ids)
    ensures forall id :: multiset(ids)[id] <= 1
  {
    if ids != [] {
      var front, last := ids[..|ids| - 1], ids[|ids| - 1];
      assert ids == front + [last];
      DistinctMultiset(front);
      assert last !in front;
    }
  }

  lemma DistinctFromMultiset(ids: seq<MailboxId>)
    requires forall id :: multiset(ids)[id] <= 1
    ensures Distinct(ids)
  {
    forall i, j | 0 <= i < j < |ids| ensures ids[i] != ids[j] {
      if ids[i] == ids[j] {
        CountedTwice(ids, i, j);
      }
    }
  }

  lemma CountedTwice(ids: seq<MailboxId>, i: nat, j: nat)
    requires i < j < |ids| && ids[i] == ids[j]
    ensures multiset(ids)[ids[i]] >= 2
  {
    assert ids == ids[..j] + ids[j..];
    assert ids[..j][i] in ids[..j] && ids[j..][0] in ids[j..];
  }

  // ------------------------------------------------------------------ the forest

  function Ids(level: seq<LabelNode>): (ids: seq<MailboxId>)
    ensures |ids| == |level| && forall i | 0 <= i < |ids| :: ids[i] == level[i].id
  {
    seq(|level|, i requires 0 <= i < |level| => level[i].id)
  }

  /** A level of the forest and all below it: exactly the labels that hang from `parent`,
      sorted, each over exactly those that hang from it. */
  predicate Nested(nodes: Nodes, labels: seq<Label>, level: seq<LabelNode>, parent: Option<MailboxId>)
    decreases level
  {
    && Ids(level) == Sorted(nodes, Hanging(nodes, labels, parent))
    && forall n | n in level ::
         && n.id in nodes && n.name == nodes[n.id].name
         && Nested(nodes, labels, n.children, Some(n.id))
  }

  /** Every list holds the labels that hang there, sorted already or not yet. */
  ghost predicate Linked(nodes: Nodes, children: map<MailboxId, seq<MailboxId>>, roots: seq<MailboxId>, labels: seq<Label>) {
    && nodes == NodesOf(labels) && children.Keys == nodes.Keys
    && Sorted(nodes, roots) == Sorted(nodes, Hanging(nodes, labels, None))
    && forall id | id in nodes :: Sorted(nodes, children[id]) == Sorted(nodes, Hanging(nodes, labels, Some(id)))
  }

  /** The lists of nodes that `_build_label_tree` links and sorts. */
  class Forest {
    var nodes: Nodes
    var children: map<MailboxId, seq<MailboxId>>
    var roots: seq<MailboxId>

    constructor ()
      ensures nodes == map[] && children == map[] && roots == []
    {
      nodes, children, roots := map[], map[], [];
    }

    /** The first loop: a node, with no children yet, for every label not hidden. */
    method MakeNodes(labels: seq<Label>)
      requires nodes == map[] && children == map[] && roots == []
      modifies this
      ensures nodes == NodesOf(labels) && children.Keys == nodes.Keys
      ensures roots == [] && forall id | id in children :: children[id] == []
    {
      for i := 0 to |labels|
        invariant nodes == NodesOf(labels[..i]) && children.Keys == nodes.Keys
        invariant roots == [] && forall id | id in children :: children[id] == []
      {
        assert labels[..i + 1][..i] == labels[..i];
        if labels[i].shown {
          nodes := nodes[labels[i].id := labels[i]];
          children := children[labels[i].id := []];
        }
      }
      assert labels[..|labels|] == labels;
    }

    /** The second: each node appended to its parent's children, or to the roots. */
    method Attach(labels: seq<Label>)
      requires OneEach(labels)
      requires nodes == NodesOf(labels) && children.Keys == nodes.Keys
      requires roots == [] && forall id | id in children :: children[id] == []
      modifies `children, `roots
      ensures children.Keys == nodes.Keys && Attached(nodes, children, roots, labels)
      ensures Linked(nodes, children, roots, labels)
    {
      hide Sorted, NodesOf, OneEach, Hanging, Attached, Linked;
      NothingHangs(nodes);
      NothingAttached(nodes, children);
      for i := 0 to |labels|
        invariant children.Keys == nodes.Keys
        invariant Attached(nodes, children, roots, labels[..i])
      {
        NodeIs(labels, i);
        AttachNext(nodes, children, roots, labels, i);
        if labels[i].id in nodes {
          var parent := Above(nodes, nodes[labels[i].id]);
          if parent.Some? {
            children := children[parent.value := children[parent.value] + [labels[i].id]];
          } else {
            roots := roots + [labels[i].id];
          }
        }
      }
      assert labels[..|labels|] == labels;
      AttachedLinked(nodes, children, roots, labels);
    }

    /** `level.sort(...)` on one of the lists. */
    method SortList(labels: seq<Label>, parent: Option<MailboxId>) returns (ids: seq<MailboxId>)
      requires Linked(nodes, children, roots, labels) && (parent.Some? ==> parent.value in nodes)
      modifies `children, `roots
      ensures Linked(nodes, children, roots, labels)
      ensures ids == if parent.Some? then children[parent.value] else roots
      ensures ids == Sorted(nodes, Hanging(nodes, labels, parent))
    {
      hide Sorted, Hanging, NodesOf, ByName, Linked;
      LinkedSorted(nodes, children, roots, labels, parent);
      ids := Sorted(nodes, if parent.Some? then children[parent.value] else roots);
      if parent.Some? {
        children := children[parent.value := ids];
      } else {
        roots := ids;
      }
    }

    /** `_sort`: the level, then each of its nodes' children. `path` is the way here from a
        root: as no label is twice on it, the descent ends. */
    method SortLevel(labels: seq<Label>, ghost path: seq<MailboxId>, parent: Option<MailboxId>) returns (level: seq<LabelNode>)
      requires OneEach(labels) && Linked(nodes, children, roots, labels)
      requires nodes == NodesOf(labels) && parent == Last(path) && WayTo(nodes, path)
      modifies `children, `roots
      ensures Linked(nodes, children, roots, labels)
      ensures Nested(nodes, labels, level, parent)
      decreases |nodes| - |path|
    {
      hide Sorted, Hanging, Nested, NodesOf, OneEach, Chain, Last, Linked, ByName, BelowNested, Ids;
      NoneBelow(nodes, labels);
      LastIn(nodes, path);

      var ids := SortList(labels, parent);
      level := [];
      for i := 0 to |ids|
        invariant Linked(nodes, children, roots, labels)
        invariant Ids(level) == ids[..i] && BelowNested(nodes, labels, level)
      {
        DownOne(nodes, labels, path, ids, i);
        var below := SortLevel(labels, path + [ids[i]], Some(ids[i]));
        var node := LabelNode(ids[i], nodes[ids[i]].name, below);
        BelowAppend(nodes, labels, level, node);
        assert ids[..i + 1] == ids[..i] + [ids[i]];
        level := level + [node];
      }
      assert ids[..|ids|] == ids;
      NestedIs(nodes, labels, level, parent);
    }
  }

  lemma DownOne(nodes: Nodes, labels: seq<Label>, path: seq<MailboxId>, ids: seq<MailboxId>, i: nat)
    requires OneEach(labels) && nodes == NodesOf(labels) && WayTo(nodes, path)
    requires ids == Sorted(nodes, Hanging(nodes, labels, Last(path))) && i < |ids|
    ensures ids[i] in nodes && WayTo(nodes, path + [ids[i]]) && Last(path + [ids[i]]) == Some(ids[i])
    ensures |path| < |path + [ids[i]]| <= |nodes|
  {
    hide Sorted, Hanging, NodesOf, OneEach, Chain, Last;
    ChainDown(nodes, labels, path, ids[i]);
    ChainLength(nodes, path + [ids[i]]);
    LastOf(path, ids[i]);
  }

  /** Sorting a list that belongs to a level keeps it there. */
  lemma LinkedSorted(nodes: Nodes, children: map<MailboxId, seq<MailboxId>>, roots: seq<MailboxId>, labels: seq<Label>, parent: Option<MailboxId>)
    requires Linked(nodes, children, roots, labels) && (parent.Some? ==> parent.value in nodes)
    ensures children.Keys == nodes.Keys
    ensures
      var ids := Sorted(nodes, if parent.Some? then children[parent.value] else roots);
      && ids == Sorted(nodes, Hanging(nodes, labels, parent))
      && (parent.Some? ==> Linked(nodes, children[parent.value := ids], roots, labels))
      && (parent.None? ==> Linked(nodes, children, ids, labels))
  {
    hide Sorted, Hanging, NodesOf;
    SortedAlready(nodes, Sorted(nodes, if parent.Some? then children[parent.value] else roots));
  }

  lemma NothingHangs(nodes: Nodes)
    ensures forall parent :: Hanging(nodes, [], parent) == []
  {
  }

  /** Every list holds the labels of `some` that hang there, in order. */
  ghost predicate Attached(nodes: Nodes, children: map<MailboxId, seq<MailboxId>>, roots: seq<MailboxId>, some: seq<Label>)
    requires children.Keys == nodes.Keys
  {
    && roots == Hanging(nodes, some, None)
    && forall id | id in nodes :: children[id] == Hanging(nodes, some, Some(id))
  }

  lemma NothingAttached(nodes: Nodes, children: map<MailboxId, seq<MailboxId>>)
    requires children.Keys == nodes.Keys && forall id | id in children :: children[id] == []
    ensures Attached(nodes, children, [], [])
  {
  }

  lemma AttachedLinked(nodes: Nodes, children: map<MailboxId, seq<MailboxId>>, roots: seq<MailboxId>, labels: seq<Label>)
    requires nodes == NodesOf(labels) && children.Keys == nodes.Keys && Attached(nodes, children, roots, labels)
    ensures Linked(nodes, children, roots, labels)
  {
    hide Sorted, NodesOf, Hanging;
  }

  lemma AttachNext(nodes: Nodes, children: map<MailboxId, seq<MailboxId>>, roots: seq<MailboxId>, labels: seq<Label>, i: nat)
    requires i < |labels| && children.Keys == nodes.Keys && Attached(nodes, children, roots, labels[..i])
    ensures
      var l, parent := labels[i], Above(nodes, labels[i]);
      && (parent.Some? ==> parent.value in nodes)
      && (if !l.shown then Attached(nodes, children, roots, labels[..i + 1])
          else if parent.None? then Attached(nodes, children, roots + [l.id], labels[..i + 1])
          else Attached(nodes, children[parent.value := children[parent.value] + [l.id]], roots, labels[..i + 1]))
  {
    hide Hanging;
    NextHangs(nodes, labels, i);
  }

  lemma NextHangs(nodes: Nodes, labels: seq<Label>, i: nat)
    requires i < |labels|
    ensures forall parent ::
              Hanging(nodes, labels[..i + 1], parent)
              == if labels[i].shown && Above(nodes, labels[i]) == parent then Hanging(nodes, labels[..i], parent) + [labels[i].id]
                 else Hanging(nodes, labels[..i], parent)
  {
    assert labels[..i + 1][..i] == labels[..i];
  }

  predicate BelowNested(nodes: Nodes, labels: seq<Label>, level: seq<LabelNode>) {
    forall n | n in level :: n.id in nodes && n.name == nodes[n.id].name && Nested(nodes, labels, n.children, Some(n.id))
  }

  lemma NoneBelow(nodes: Nodes, labels: seq<Label>)
    ensures BelowNested(nodes, labels, []) && Ids([]) == []
  {
  }

  lemma BelowAppend(nodes: Nodes, labels: seq<Label>, level: seq<LabelNode>, node: LabelNode)
    requires BelowNested(nodes, labels, level)
    requires node.id in nodes && node.name == nodes[node.id].name && Nested(nodes, labels, node.children, Some(node.id))
    ensures BelowNested(nodes, labels, level + [node])
    ensures Ids(level + [node]) == Ids(level) + [node.id]
  {
    hide Nested;
    assert node in [node];
  }

  lemma NodeIs(labels: seq<Label>, i: nat)
    requires OneEach(labels) && i < |labels|
    ensures labels[i].id in NodesOf(labels) <==> labels[i].shown
    ensures labels[i].shown ==> NodesOf(labels)[labels[i].id] == labels[i]
  {
    assert labels[i] in labels;
    if labels[i].id in NodesOf(labels) {
      var l := NodesOf(labels)[labels[i].id];
      var j :| 0 <= j < |labels| && labels[j] == l;
      assert !(i < j) && !(j < i);
    }
  }

  lemma NestedIs(nodes: Nodes, labels: seq<Label>, level: seq<LabelNode>, parent: Option<MailboxId>)
    requires Ids(level) == Sorted(nodes, Hanging(nodes, labels, parent))
    requires BelowNested(nodes, labels, level)
    ensures Nested(nodes, labels, level, parent)
  {
  }

  /** `_build_label_tree`. */
  method BuildLabelTree(labels: seq<Label>) returns (forest: seq<LabelNode>)
    requires OneEach(labels)
    ensures Nested(NodesOf(labels), labels, forest, None)
  {
    var lists := new Forest();
    lists.MakeNodes(labels);
    lists.Attach(labels);
    forest := lists.SortLevel(labels, [], None);
  }

  // ---------------------------------------------------------- chains from a root

  function Last(path: seq<MailboxId>): Option<MailboxId> {
    if path == [] then None else Some(path[|path| - 1])
  }

  /** Each label hangs from the one before it. */
  predicate Descends(nodes: Nodes, path: seq<MailboxId>) {
    && (forall id | id in path :: id in nodes)
    && forall i | 0 < i < |path| :: Above(nodes, nodes[path[i]]) == Some(path[i - 1])
  }

  /** The way down to a label from the top. */
  predicate Chain(nodes: Nodes, path: seq<MailboxId>) {
    path != [] && Descends(nodes, path) && Above(nodes, nodes[path[0]]) == None
  }

  /** A way down that may not have begun. */
  predicate WayTo(nodes: Nodes, path: seq<MailboxId>) {
    path != [] ==> Chain(nodes, path)
  }

  lemma LastIn(nodes: Nodes, path: seq<MailboxId>)
    requires WayTo(nodes, path)
    ensures Last(path).Some? ==> Last(path).value in nodes
  {
  }

  lemma LastOf(path: seq<MailboxId>, id: MailboxId)
    ensures Last(path + [id]) == Some(id) && path + [id] != []
  {
  }

  ghost predicate Rooted(nodes: Nodes, id: MailboxId) {
    exists path :: Chain(nodes, path) && Last(path) == Some(id)
  }

  /** There is only one way down to a label. */
  lemma {:induction false} ChainUnique(nodes: Nodes, p: seq<MailboxId>, q: seq<MailboxId>)
    requires Chain(nodes, p) && Chain(nodes, q) && Last(p) == Last(q)
    ensures p == q
    decreases |p|
  {
    var m, n := |p| - 1, |q| - 1;
    assert p[m] == q[n];
    assert m > 0 ==> Above(nodes, nodes[p[m]]) == Some(p[m - 1]);
    assert n > 0 ==> Above(nodes, nodes[q[n]]) == Some(q[n - 1]);
    if m == 0 {
      assert p == [p[0]] && q == [q[0]];
    } else {
      ChainPrefix(nodes, p, m);
      ChainPrefix(nodes, q, n);
      ChainUnique(nodes, p[..m], q[..n]);
      assert p == p[..m] + [p[m]] && q == q[..n] + [q[n]];
    }
  }

  lemma ChainPrefix(nodes: Nodes, path: seq<MailboxId>, n: nat)
    requires Chain(nodes, path) && 0 < n <= |path|
    ensures Chain(nodes, path[..n])
  {
    assert forall id | id in path[..n] :: id in path;
  }

  /** A label on the level `path` leads to is one step further down. */
  lemma ChainDown(nodes: Nodes, labels: seq<Label>, path: seq<MailboxId>, id: MailboxId)
    requires OneEach(labels) && nodes == NodesOf(labels) && WayTo(nodes, path)
    ensures id in Sorted(nodes, Hanging(nodes, labels, Last(path))) <==> Chain(nodes, path + [id])
    ensures Chain(nodes, path + [id]) ==> id in nodes
  {
    hide Sorted, Hanging, NodesOf, Distinct;
    SortedMembers(nodes, Hanging(nodes, labels, Last(path)));
    HangingAre(nodes, labels, Last(path));
    if id in Hanging(nodes, labels, Last(path)) {
      var l :| l in labels && l.id == id;
      assert l.shown;
    }
    assert Chain(nodes, path + [id]) ==> (path + [id])[|path|] in nodes;
    if id in nodes {
      NodeLabel(labels, id);
      StepDown(nodes, path, id);
    }
  }

  lemma NodeLabel(labels: seq<Label>, id: MailboxId)
    requires id in NodesOf(labels)
    ensures NodesOf(labels)[id] in labels && NodesOf(labels)[id].id == id && NodesOf(labels)[id].shown
  {
  }

  lemma StepDown(nodes: Nodes, path: seq<MailboxId>, id: MailboxId)
    requires WayTo(nodes, path) && id in nodes
    ensures Chain(nodes, path + [id]) <==> Above(nodes, nodes[id]) == Last(path)
  {
    var longer := path + [id];
    assert longer[|path|] == id;
    assert longer[..|path|] == path;
  }

  /** No label is twice on a chain, so a chain is no longer than there are labels. */
  lemma ChainLength(nodes: Nodes, path: seq<MailboxId>)
    requires Chain(nodes, path)
    ensures Distinct(path) && |path| <= |nodes|
  {
    forall i, j | 0 <= i < j < |path| ensures path[i] != path[j] {
      if path[i] == path[j] {
        ChainPrefix(nodes, path, i + 1);
        ChainPrefix(nodes, path, j + 1);
        ChainUnique(nodes, path[..i + 1], path[..j + 1]);
      }
    }
    DistinctFits(path, nodes.Keys);
    assert |nodes.Keys| == |nodes|;
  }

  lemma {:induction false} DistinctFits(path: seq<MailboxId>, ids: set<MailboxId>)
    requires Distinct(path) && forall id | id in path :: id in ids
    ensures |path| <= |ids|
  {
    if path != [] {
      var front, last := path[..|path| - 1], path[|path| - 1];
      assert path == front + [last];
      assert last !in front;
      DistinctFits(front, ids - {last});
    }
  }

  // ------------------------------------------------------------- once and only once

  /** Parent, then children, then the next sibling. */
  function Preorder(level: seq<LabelNode>): seq<MailboxId> {
    if level == [] then []
    else [level[0].id] + Preorder(level[0].children) + Preorder(level[1..])
  }

  /** Some nodes of the level `path` leads to, each with everything below it. */
  predicate Hung(nodes: Nodes, labels: seq<Label>, path: seq<MailboxId>, level: seq<LabelNode>) {
    forall n | n in level :: Chain(nodes, path + [n.id]) && Nested(nodes, labels, n.children, Some(n.id))
  }

  lemma NestedHung(nodes: Nodes, labels: seq<Label>, path: seq<MailboxId>, level: seq<LabelNode>)
    requires OneEach(labels) && nodes == NodesOf(labels) && WayTo(nodes, path)
    requires Nested(nodes, labels, level, Last(path))
    ensures Hung(nodes, labels, path, level) && Distinct(Ids(level))
  {
    hide Sorted, Hanging, NodesOf, Chain, Last;
    forall n | n in level ensures Chain(nodes, path + [n.id]) {
      var i :| 0 <= i < |level| && level[i] == n;
      assert Ids(level)[i] in Ids(level);
      ChainDown(nodes, labels, path, n.id);
    }
    SortedMembers(nodes, Hanging(nodes, labels, Last(path)));
    HangingAre(nodes, labels, Last(path));
  }

  /** Whatever is in the preorder of a level is reached by a chain through the level. */
  lemma {:induction false} ReachedThrough(nodes: Nodes, labels: seq<Label>, path: seq<MailboxId>, level: seq<LabelNode>, id: MailboxId) returns (way: seq<MailboxId>)
    requires OneEach(labels) && nodes == NodesOf(labels)
    requires Hung(nodes, labels, path, level) && id in Preorder(level)
    ensures Chain(nodes, way) && Last(way) == Some(id)
    ensures |way| > |path| && way[..|path|] == path && way[|path|] in Ids(level)
    decreases level
  {
    hide Nested, NodesOf, Chain;
    var node, rest := level[0], level[1..];
    assert level == [node] + rest;
    assert Ids(level)[0] == node.id && Ids(level)[1..] == Ids(rest);
    if id == node.id {
      way := path + [id];
    } else if id in Preorder(node.children) {
      NestedHung(nodes, labels, path + [node.id], node.children);
      way := ReachedThrough(nodes, labels, path + [node.id], node.children, id);
      assert way[|path|] == (path + [node.id])[|path|];
      assert way[..|path|] == (path + [node.id])[..|path|];
    } else {
      way := ReachedThrough(nodes, labels, path, rest, id);
    }
  }

  lemma {:induction false} PreorderOnce(nodes: Nodes, labels: seq<Label>, path: seq<MailboxId>, level: seq<LabelNode>)
    requires OneEach(labels) && nodes == NodesOf(labels)
    requires Hung(nodes, labels, path, level) && Distinct(Ids(level))
    ensures Distinct(Preorder(level))
    decreases level
  {
    hide Nested, NodesOf, Chain, OneEach, Distinct;
    if level == [] {
      assert Distinct<MailboxId>([]) by {
        DistinctEmpty();
      }
    } else {
      var node, rest := level[0], level[1..];
      assert level == [node] + rest && Preorder([node]) == [node.id] + Preorder(node.children);
      NestedHung(nodes, labels, path + [node.id], node.children);
      PreorderOnce(nodes, labels, path + [node.id], node.children);
      NotBelowItself(nodes, labels, path, node);
      DistinctJoin([node.id], Preorder(node.children));
      FirstApart(level);
      PreorderOnce(nodes, labels, path, rest);
      Apart(nodes, labels, path, node, rest);
      DistinctJoin(Preorder([node]), Preorder(rest));
    }
  }

  lemma DistinctEmpty()
    ensures Distinct<MailboxId>([]) && forall id: MailboxId :: Distinct([id])
  {
  }

  lemma FirstApart(level: seq<LabelNode>)
    requires level != [] && Distinct(Ids(level))
    ensures level[0].id !in Ids(level[1..]) && Distinct(Ids(level[1..])) && Distinct([level[0].id])
  {
    assert Ids(level) == [level[0].id] + Ids(level[1..]);
  }

  lemma NotBelowItself(nodes: Nodes, labels: seq<Label>, path: seq<MailboxId>, node: LabelNode)
    requires OneEach(labels) && nodes == NodesOf(labels) && Chain(nodes, path + [node.id])
    requires Hung(nodes, labels, path + [node.id], node.children)
    ensures node.id !in Preorder(node.children)
  {
    hide Nested, NodesOf, OneEach, Chain, Hung;
    if node.id in Preorder(node.children) {
      var way := ReachedThrough(nodes, labels, path + [node.id], node.children, node.id);
      ChainUnique(nodes, way, path + [node.id]);
    }
  }

  /** Two labels of one level have nothing below them in common. */
  lemma Apart(nodes: Nodes, labels: seq<Label>, path: seq<MailboxId>, node: LabelNode, rest: seq<LabelNode>)
    requires OneEach(labels) && nodes == NodesOf(labels)
    requires Hung(nodes, labels, path, [node]) && Hung(nodes, labels, path, rest) && node.id !in Ids(rest)
    ensures forall id | id in Preorder(rest) :: id !in Preorder([node])
  {
    hide Nested, NodesOf, OneEach, Chain, Hung, Preorder;
    forall id | id in Preorder(rest) ensures id !in Preorder([node]) {
      var way := ReachedThrough(nodes, labels, path, rest, id);
      if id in Preorder([node]) {
        var other := ReachedThrough(nodes, labels, path, [node], id);
        ChainUnique(nodes, way, other);
      }
    }
  }

  lemma {:induction false} InPreorder(level: seq<LabelNode>, i: nat)
    requires i < |level|
    ensures level[i].id in Preorder(level)
    ensures forall id | id in Preorder(level[i].children) :: id in Preorder(level)
  {
    if i > 0 {
      InPreorder(level[1..], i - 1);
    }
  }

  /** The next label of a chain is on the level the chain so far leads to. */
  lemma NextOnLevel(nodes: Nodes, labels: seq<Label>, path: seq<MailboxId>, level: seq<LabelNode>, next: MailboxId) returns (i: nat)
    requires OneEach(labels) && nodes == NodesOf(labels) && WayTo(nodes, path)
    requires Nested(nodes, labels, level, Last(path)) && Chain(nodes, path + [next])
    ensures i < |level| && level[i].id == next && Nested(nodes, labels, level[i].children, Some(next))
  {
    hide Sorted, Hanging, NodesOf, OneEach, Chain, Last;
    ChainDown(nodes, labels, path, next);
    assert next in Ids(level);
    i :| 0 <= i < |level| && Ids(level)[i] == next;
    assert level[i] in level;
  }

  /** And a label with a chain is found at the end of it. */
  lemma {:induction false} FoundAtTheEnd(nodes: Nodes, labels: seq<Label>, path: seq<MailboxId>, level: seq<LabelNode>, way: seq<MailboxId>)
    requires OneEach(labels) && nodes == NodesOf(labels) && WayTo(nodes, path)
    requires Nested(nodes, labels, level, Last(path))
    requires Chain(nodes, way) && |path| < |way| && way[..|path|] == path
    ensures way[|way| - 1] in Preorder(level)
    decreases |way| - |path|
  {
    hide Nested, NodesOf, OneEach, Chain, Preorder;
    var next := way[|path|];
    var longer := path + [next];
    assert longer == way[..|path| + 1];
    ChainPrefix(nodes, way, |path| + 1);
    var i := NextOnLevel(nodes, labels, path, level, next);
    InPreorder(level, i);
    if |longer| < |way| {
      FoundAtTheEnd(nodes, labels, longer, level[i].children, way);
    }
  }

  /** A label's place, in the labels' own terms: under its parent if that is shown, and
      otherwise at the top. */
  predicate HangsAt(labels: seq<Label>, l: Label, parent: Option<MailboxId>) {
    && l.shown
    && if l.parent.Some? && exists p | p in labels :: p.id == l.parent.value && p.shown then parent == l.parent else parent == None
  }

  /** Each level of the forest is exactly the labels whose place is there, under their own
      names and in the order of the alphabet. */
  lemma LevelIs(labels: seq<Label>, level: seq<LabelNode>, parent: Option<MailboxId>)
    requires OneEach(labels) && Nested(NodesOf(labels), labels, level, parent)
    ensures forall i, j | 0 <= i < j < |level| :: Alphabetical(level[i].name, level[j].name)
    ensures forall l | l in labels :: HangsAt(labels, l, parent) <==> exists n :: n in level && n.id == l.id
    ensures forall n | n in level :: exists l :: l in labels && l.id == n.id && l.name == n.name
    ensures forall n | n in level :: Nested(NodesOf(labels), labels, n.children, Some(n.id))
  {
    hide Alphabetical, AtMost;
    var nodes := NodesOf(labels);
    var ids := Hanging(nodes, labels, parent);
    NestedLevel(nodes, labels, level, parent);
    SortedMembers(nodes, ids);
    HangingAre(nodes, labels, parent);
    forall i, j | 0 <= i < j < |level| ensures Alphabetical(level[i].name, level[j].name) {
      assert level[i] in level && level[j] in level;
      assert AtMost(Key(nodes, Ids(level)[i]), Key(nodes, Ids(level)[j]));
      AlphabeticalIs(level[i].name, level[j].name);
    }
    forall l | l in labels ensures HangsAt(labels, l, parent) <==> exists n :: n in level && n.id == l.id {
      PlaceOfLabel(labels, l, parent);
      if l.id in ids {
        var i :| 0 <= i < |Ids(level)| && Ids(level)[i] == l.id;
        assert level[i] in level;
      }
      if n :| n in level && n.id == l.id {
        var i :| 0 <= i < |level| && level[i] == n;
        assert Ids(level)[i] == l.id;
      }
    }
  }

  lemma NestedLevel(nodes: Nodes, labels: seq<Label>, level: seq<LabelNode>, parent: Option<MailboxId>)
    requires Nested(nodes, labels, level, parent)
    ensures Ids(level) == Sorted(nodes, Hanging(nodes, labels, parent))
    ensures forall n | n in level ::
              n.id in nodes && n.name == nodes[n.id].name && Nested(nodes, labels, n.children, Some(n.id))
  {
  }

  lemma PlaceOfLabel(labels: seq<Label>, l: Label, parent: Option<MailboxId>)
    requires OneEach(labels) && l in labels
    ensures HangsAt(labels, l, parent) <==> l.shown && Above(NodesOf(labels), l) == parent
  {
  }

  /** The forest holds each label that is reached from the top exactly once, and no other:
      hidden labels are dropped, a label under a hidden parent is at the top, and only a
      label whose parents go round in a loop, or lead into one, is lost. */
  lemma ForestHolds(labels: seq<Label>, forest: seq<LabelNode>)
    requires OneEach(labels) && Nested(NodesOf(labels), labels, forest, None)
    ensures Distinct(Preorder(forest))
    ensures forall id :: id in Preorder(forest) <==> id in NodesOf(labels) && Rooted(NodesOf(labels), id)
  {
    hide Nested, NodesOf, OneEach, Preorder;
    var nodes := NodesOf(labels);
    assert Last([]) == None;
    NestedHung(nodes, labels, [], forest);
    PreorderOnce(nodes, labels, [], forest);
    forall id ensures id in Preorder(forest) <==> id in nodes && Rooted(nodes, id) {
      if id in Preorder(forest) {
        var way := ReachedThrough(nodes, labels, [], forest, id);
        assert way[|way| - 1] in way;
      }
      if id in nodes && Rooted(nodes, id) {
        var way :| Chain(nodes, way) && Last(way) == Some(id);
        FoundAtTheEnd(nodes, labels, [], forest, way);
      }
    }
  }

  /** A way up that comes back to where it began. */
  predicate Loop(nodes: Nodes, path: seq<MailboxId>) {
    |path| >= 2 && Descends(nodes, path) && path[0] == path[|path| - 1]
  }

  /** With no loop, every label not hidden has its chain, and so its one place. */
  lemma EveryLabelHasItsPlace(labels: seq<Label>, forest: seq<LabelNode>)
    requires OneEach(labels) && Nested(NodesOf(labels), labels, forest, None)
    ensures (forall id :: id in NodesOf(labels) ==> id in Preorder(forest)) <==> !(exists path :: Loop(NodesOf(labels), path))
  {
    hide Nested, NodesOf, OneEach, Preorder, Descends, Chain;
    var nodes := NodesOf(labels);
    ForestHolds(labels, forest);
    if path :| Loop(nodes, path) {
      LoopLost(nodes, path);
    } else {
      forall id | id in nodes ensures Rooted(nodes, id) {
        ClimbFrom(nodes, [id]);
      }
    }
  }

  lemma LoopLost(nodes: Nodes, path: seq<MailboxId>)
    requires Loop(nodes, path)
    ensures path[0] in nodes && !Rooted(nodes, path[0])
  {
    if way :| Chain(nodes, way) && Last(way) == Some(path[0]) {
      ChainExtends(nodes, way, path);
      ChainUnique(nodes, way, way + path[1..]);
    }
  }

  lemma ChainExtends(nodes: Nodes, way: seq<MailboxId>, path: seq<MailboxId>)
    requires Chain(nodes, way) && Descends(nodes, path) && |path| >= 2 && Last(way) == Some(path[0])
    ensures Chain(nodes, way + path[1..]) && Last(way + path[1..]) == Last(path)
  {
    var all := way + path[1..];
    forall i | 0 < i < |all| ensures Above(nodes, nodes[all[i]]) == Some(all[i - 1]) {
      if i >= |way| {
        assert all[i] == path[i - |way| + 1];
        assert all[i - 1] == path[i - |way|];
      } else {
        assert all[i] == way[i] && all[i - 1] == way[i - 1];
      }
    }
  }

  /** Climbing from a label reaches the top or comes round. */
  lemma {:induction false} ClimbFrom(nodes: Nodes, path: seq<MailboxId>)
    requires path != [] && Descends(nodes, path) && Distinct(path)
    ensures Rooted(nodes, path[|path| - 1]) || exists loop :: Loop(nodes, loop)
    decreases |nodes| - |path|
  {
    var up := Above(nodes, nodes[path[0]]);
    if up == None {
      assert Chain(nodes, path);
    } else {
      var longer := [up.value] + path;
      ClimbStep(nodes, path, up.value);
      if i :| 0 <= i < |path| && path[i] == up.value {
        LoopAt(nodes, path, i, up.value);
      } else {
        DistinctFits(longer, nodes.Keys);
        assert |nodes.Keys| == |nodes|;
        ClimbFrom(nodes, longer);
      }
    }
  }

  lemma ClimbStep(nodes: Nodes, path: seq<MailboxId>, up: MailboxId)
    requires path != [] && Descends(nodes, path) && Above(nodes, nodes[path[0]]) == Some(up)
    ensures Descends(nodes, [up] + path)
  {
    var longer := [up] + path;
    forall i | 0 < i < |longer| ensures Above(nodes, nodes[longer[i]]) == Some(longer[i - 1]) {
      assert longer[i] == path[i - 1];
      assert i == 1 || longer[i - 1] == path[i - 2];
    }
  }

  lemma LoopAt(nodes: Nodes, path: seq<MailboxId>, i: nat, up: MailboxId)
    requires i < |path| && path[i] == up && Descends(nodes, [up] + path)
    ensures Loop(nodes, ([up] + path)[..i + 2])
  {
    var longer := [up] + path;
    var round := longer[..i + 2];
    assert forall id | id in round :: id in longer;
  }

  // ---------------------------------------------------------------------- chips

  const MAX_CHIPS: nat := 3

  function Carried(ids: seq<MailboxId>, carried: set<MailboxId>): seq<MailboxId> {
    if ids == [] then []
    else (if ids[0] in carried then [ids[0]] else []) + Carried(ids[1..], carried)
  }

  function Capped(ids: seq<MailboxId>): seq<MailboxId> {
    if |ids| <= MAX_CHIPS then ids else ids[..MAX_CHIPS]
  }

  /** A thread's chips: the first three labels it carries, in nav order. */
  function ChipsOf(nodes: seq<LabelNode>, carried: set<MailboxId>): seq<MailboxId> {
    Capped(Carried(Preorder(nodes), carried))
  }

  lemma {:induction false} CarriedAppend(a: seq<MailboxId>, b: seq<MailboxId>, carried: set<MailboxId>)
    ensures Carried(a + b, carried) == Carried(a, carried) + Carried(b, carried)
  {
    if a == [] {
      assert a + b == b;
    } else {
      var first := if a[0] in carried then [a[0]] else [];
      CarriedAppend(a[1..], b, carried);
      assert (a + b)[0] == a[0] && (a + b)[1..] == a[1..] + b;
      assert Carried(a + b, carried) == first + Carried(a[1..] + b, carried);
      assert Carried(a, carried) == first + Carried(a[1..], carried);
      Associates(first, Carried(a[1..], carried), Carried(b, carried));
    }
  }

  lemma Associates(a: seq<MailboxId>, b: seq<MailboxId>, c: seq<MailboxId>)
    ensures (a + b) + c == a + (b + c)
  {
  }

  lemma {:induction false} CarriedMembers(ids: seq<MailboxId>, carried: set<MailboxId>)
    ensures forall id :: id in Carried(ids, carried) <==> id in ids && id in carried
    ensures Distinct(ids) ==> Distinct(Carried(ids, carried))
  {
    if ids != [] {
      assert ids == [ids[0]] + ids[1..];
      CarriedMembers(ids[1..], carried);
      if Distinct(ids) {
        FirstOnce(ids);
        if ids[0] in carried {
          DistinctJoin([ids[0]], Carried(ids[1..], carried));
        }
      }
    }
  }

  lemma FirstOnce(ids: seq<MailboxId>)
    requires ids != [] && Distinct(ids)
    ensures ids[0] !in ids[1..] && Distinct(ids[1..])
  {
    assert forall i | 0 <= i < |ids| - 1 :: ids[1..][i] == ids[i + 1];
  }

  /** Chips are labels in the forest that the thread carries, none twice, at most three,
      and all of them when there are no more than three. */
  lemma ChipsAre(forest: seq<LabelNode>, carried: set<MailboxId>)
    requires Distinct(Preorder(forest))
    ensures
      var chips := ChipsOf(forest, carried);
      && |chips| <= 3 && Distinct(chips)
      && (forall id | id in chips :: id in Preorder(forest) && id in carried)
      && (forall id | id in Preorder(forest) && id in carried && id !in chips ::
            |chips| == 3 && forall chip | chip in chips :: Before(Preorder(forest), chip, id))
  {
    CarriedMembers(Preorder(forest), carried);
    var ids := Preorder(forest);
    var all := Carried(ids, carried);
    assert forall id | id in Capped(all) :: id in all;
    CarriedOrder(ids, carried);
    assert forall k | 0 <= k < |Capped(all)| :: Capped(all)[k] == all[k] && all[k] in Capped(all);
    hide Before, Preorder, Carried;
    forall id, chip | id in all && id !in Capped(all) && chip in Capped(all) ensures Before(ids, chip, id) {
      var i :| 0 <= i < |Capped(all)| && Capped(all)[i] == chip;
      var j :| 0 <= j < |all| && all[j] == id;
      assert all[i] == chip;
    }
  }

  lemma {:induction false} CarriedOrder(ids: seq<MailboxId>, carried: set<MailboxId>)
    requires Distinct(ids)
    ensures forall i, j | 0 <= i < j < |Carried(ids, carried)| :: Before(ids, Carried(ids, carried)[i], Carried(ids, carried)[j])
  {
    if ids != [] {
      FirstOnce(ids);
      CarriedOrder(ids[1..], carried);
      CarriedMembers(ids[1..], carried);
      var later, all := Carried(ids[1..], carried), Carried(ids, carried);
      forall i, j | 0 <= i < j < |all| ensures Before(ids, all[i], all[j]) {
        var k := if ids[0] in carried then 1 else 0;
        assert all[j] == later[j - k] && later[j - k] in later;
        if i < k {
          assert ids[0] == all[i];
        } else {
          assert all[i] == later[i - k];
          BeforeLater(ids, all[i], all[j]);
        }
      }
    }
  }

  lemma BeforeLater(ids: seq<MailboxId>, a: MailboxId, b: MailboxId)
    requires ids != [] && Before(ids[1..], a, b) && b != ids[0]
    ensures Before(ids, a, b)
  {
    var rest := ids[1..];
    var k :| 0 <= k < |rest| && rest[k] == a && forall l | 0 <= l <= k :: rest[l] != b;
    assert ids[k + 1] == a && forall l | 0 < l <= k + 1 :: ids[l] == rest[l - 1];
  }

  /** `_chips_for`: a walk that stops as soon as there are three. */
  method ChipsFor(nodes: seq<LabelNode>, carried: set<MailboxId>) returns (chips: seq<MailboxId>)
    ensures chips == ChipsOf(nodes, carried)
  {
    chips := Walk(nodes, carried, []);
    assert [] + Carried(Preorder(nodes), carried) == Carried(Preorder(nodes), carried);
  }

  method Walk(nodes: seq<LabelNode>, carried: set<MailboxId>, found: seq<MailboxId>) returns (chips: seq<MailboxId>)
    requires |found| <= MAX_CHIPS
    ensures chips == Capped(found + Carried(Preorder(nodes), carried))
    decreases nodes
  {
    chips := found;
    var i := 0;
    assert nodes[0..] == nodes;
    while i < |nodes|
      invariant 0 <= i <= |nodes| && |chips| <= MAX_CHIPS
      invariant Capped(chips + Carried(Preorder(nodes[i..]), carried)) == Capped(found + Carried(Preorder(nodes), carried))
    {
      if |chips| >= MAX_CHIPS {
        return;
      }
      var node := nodes[i];
      ghost var rest := nodes[i + 1..];
      assert nodes[i..] == [node] + rest;
      StepCarried(chips, node, rest, carried);
      if node.id in carried {
        chips := chips + [node.id];
      }
      chips := Walk(node.children, carried, chips);
      i := i + 1;
    }
    assert chips + [] == chips;
  }

  /** One node's turn: itself, its children, and then the rest of the level. */
  lemma StepCarried(chips: seq<MailboxId>, node: LabelNode, rest: seq<LabelNode>, carried: set<MailboxId>)
    ensures
      var own := if node.id in carried then chips + [node.id] else chips;
      var below := Capped(own + Carried(Preorder(node.children), carried));
      Capped(chips + Carried(Preorder([node] + rest), carried)) == Capped(below + Carried(Preorder(rest), carried))
  {
    var children, later := Preorder(node.children), Preorder(rest);
    assert Preorder([node] + rest) == [node.id] + children + later;
    var own := if node.id in carried then chips + [node.id] else chips;
    StepJoin(chips, node.id, children, later, carried);
    CappedTwice(own + Carried(children, carried), Carried(later, carried));
  }

  lemma StepJoin(chips: seq<MailboxId>, id: MailboxId, children: seq<MailboxId>, later: seq<MailboxId>, carried: set<MailboxId>)
    ensures
      var own := if id in carried then chips + [id] else chips;
      chips + Carried([id] + children + later, carried) == own + Carried(children, carried) + Carried(later, carried)
  {
    var first := if id in carried then [id] else [];
    CarriedFirst(id, carried);
    hide Carried;
    CarriedAppend([id] + children, later, carried);
    CarriedAppend([id], children, carried);
    var c, l := Carried(children, carried), Carried(later, carried);
    Associates(chips, first + c, l);
    Associates(chips, first, c);
  }

  lemma CarriedFirst(id: MailboxId, carried: set<MailboxId>)
    ensures Carried([id], carried) == if id in carried then [id] else []
  {
    assert [id][1..] == [];
  }

  lemma CappedTwice(a: seq<MailboxId>, b: seq<MailboxId>)
    ensures Capped(Capped(a) + b) == Capped(a + b)
  {
  }
}
