/** JMAP `Email/query` filters: `FilterCondition` (section 4.4.1 of RFC 8621) under
    `FilterOperator` (section 5.5 of RFC 8620), what a filter means, and the
    constructors the search compiler builds every tree with. */
module Filters {
  import opened Wrappers
  import opened Calendar

  const SEEN: string := "$seen"
  const FLAGGED: string := "$flagged"

  datatype TextKey = KeyText | KeyFrom | KeyTo | KeyCc | KeyBcc | KeySubject | KeyBody

  datatype Condition =
    | Matches(key: TextKey, text: string)
    | HasAttachment
    | HasKeyword(keyword: string)
    | NotKeyword(keyword: string)
    | InMailbox(mailbox: string)
    | Before(when: DateTime)
    | After(when: DateTime)
    | MinSize(size: nat)
    | MaxSize(size: nat)

  datatype Operator = AND | OR | NOT

  datatype Filter = Cond(cond: Condition) | Op(op: Operator, args: seq<Filter>)

  /** A message, as far as a filter can see it. How a server matches text is left to the
      server by RFC 8621, so the texts that match a message are part of the message. */
  datatype Message = Message(
    hits: set<(TextKey, string)>,
    attachment: bool,
    keywords: set<string>,
    mailboxes: set<string>,
    receivedAt: DateTime,
    size: nat)

  predicate Holds(c: Condition, m: Message) {
    match c
    case Matches(key, text) => (key, text) in m.hits
    case HasAttachment => m.attachment
    case HasKeyword(keyword) => keyword in m.keywords
    case NotKeyword(keyword) => keyword !in m.keywords
    case InMailbox(mailbox) => mailbox in m.mailboxes
    case Before(when) => !when.AtMost(m.receivedAt)
    case After(when) => when.AtMost(m.receivedAt)
    case MinSize(size) => m.size >= size
    case MaxSize(size) => m.size < size
  }

  predicate Eval(f: Filter, m: Message) {
    match f
    case Cond(c) => Holds(c, m)
    case Op(AND, args) => forall i | 0 <= i < |args| :: Eval(args[i], m)
    case Op(OR, args) => exists i | 0 <= i < |args| :: Eval(args[i], m)
    case Op(NOT, args) => forall i | 0 <= i < |args| :: !Eval(args[i], m)
  }

  // ------------------------------------------------------------- constructors

  function Somes<T>(nodes: seq<Option<T>>): seq<T> {
    if nodes == [] then []
    else (if nodes[0].Some? then [nodes[0].value] else []) + Somes(nodes[1..])
  }

  function Combine(op: Operator, nodes: seq<Option<Filter>>): Option<Filter> {
    var kept := Somes(nodes);
    if |kept| == 0 then None
    else if |kept| == 1 then Some(kept[0])
    else Some(Op(op, kept))
  }

  function Not(node: Option<Filter>): Option<Filter> {
    match node
    case None => None
    case Some(f) =>
      if f.Op? && f.op == NOT && |f.args| == 1 then Some(f.args[0])
      else Some(Op(NOT, [f]))
  }

  function Negate(node: Option<Filter>, negations: nat): Option<Filter> {
    if negations % 2 == 1 then Not(node) else node
  }

  /** A contradiction every server evaluates the same way. */
  function MatchNothing(): (f: Filter)
    ensures forall m :: !Eval(f, m)
  {
    var f := Op(AND, [Cond(HasKeyword(SEEN)), Cond(NotKeyword(SEEN))]);
    assert forall m :: Eval(f, m) ==> Eval(f.args[0], m) && Eval(f.args[1], m);
    f
  }

  // ------------------------------------------------------------------ measures

  predicate NotRooted(f: Filter) {
    f.Op? && f.op == NOT
  }

  /** No NOT directly under a NOT, one child per NOT, two or more per AND and OR. */
  predicate Normal(f: Filter) {
    match f
    case Cond(_) => true
    case Op(op, args) =>
      && (if op == NOT then |args| == 1 && !NotRooted(args[0]) else |args| >= 2)
      && forall i | 0 <= i < |args| :: Normal(args[i])
  }

  /** Nodes in the tree. */
  function Size(f: Filter): (n: nat)
    ensures n >= 1
    decreases f, 1
  {
    match f
    case Cond(_) => 1
    case Op(_, args) => 1 + SizeAll(args)
  }

  function SizeAll(fs: seq<Filter>): (n: nat)
    ensures n >= |fs|
    decreases fs, 0
  {
    if fs == [] then 0 else Size(fs[0]) + SizeAll(fs[1..])
  }

  /** `part` is the tree itself or somewhere inside it. */
  predicate Occurs(part: Filter, whole: Filter) {
    || part == whole
    || (whole.Op? && exists i | 0 <= i < |whole.args| :: Occurs(part, whole.args[i]))
  }

  predicate OccursIn(part: Filter, node: Option<Filter>) {
    node.Some? && Occurs(part, node.value)
  }

  // ---------------------------------------------------------------- properties

  lemma SomesAppend<T>(a: seq<Option<T>>, b: seq<Option<T>>)
    ensures Somes(a + b) == Somes(a) + Somes(b)
  {
    if a == [] {
      assert a + b == b;
    } else {
      SomesAppend(a[1..], b);
      assert (a + b)[1..] == a[1..] + b;
    }
  }

  lemma {:induction false} SomesMembers<T>(nodes: seq<Option<T>>)
    ensures forall x :: x in Somes(nodes) <==> Some(x) in nodes
  {
    if nodes != [] {
      SomesMembers(nodes[1..]);
      forall x ensures x in Somes(nodes) <==> Some(x) in nodes {
        assert nodes == [nodes[0]] + nodes[1..];
      }
    }
  }

  /** The conjunction or disjunction of a list of optional nodes in which the absent
      ones have been erased. */
  predicate MeansAll(op: Operator, nodes: seq<Option<Filter>>, m: Message) {
    if op == AND then forall i | 0 <= i < |nodes| && nodes[i].Some? :: Eval(nodes[i].value, m)
    else exists i | 0 <= i < |nodes| && nodes[i].Some? :: Eval(nodes[i].value, m)
  }

  /** `_and` and `_or` mean what they say over the branches that constrain something,
      and constrain nothing exactly when no branch does. */
  lemma CombineMeaning(op: Operator, nodes: seq<Option<Filter>>, m: Message)
    requires op != NOT
    ensures Combine(op, nodes).None? <==> forall i | 0 <= i < |nodes| :: nodes[i].None?
    ensures Combine(op, nodes).Some? ==>
              (Eval(Combine(op, nodes).value, m) <==> MeansAll(op, nodes, m))
  {
    SomesMembers(nodes);
    var kept := Somes(nodes);
    if kept != [] {
      assert kept[0] in kept;
      forall i | 0 <= i < |nodes| && nodes[i].Some? ensures nodes[i].value in kept {
        assert nodes[i] == Some(nodes[i].value);
      }
      forall j | 0 <= j < |kept| ensures Some(kept[j]) in nodes {
        assert kept[j] in kept;
      }
    }
  }

  /** `_not` is negation, collapsing included. */
  lemma NotMeaning(node: Option<Filter>, m: Message)
    ensures Not(node).None? <==> node.None?
    ensures node.Some? ==> (Eval(Not(node).value, m) <==> !Eval(node.value, m))
  {
    if node.Some? {
      var f := node.value;
      if f.Op? && f.op == NOT && |f.args| == 1 {
        assert Eval(f, m) <==> !Eval(f.args[0], m);
      } else {
        assert Eval(Op(NOT, [f]), m) <==> !Eval([f][0], m);
      }
    }
  }

  lemma CombineNormal(op: Operator, nodes: seq<Option<Filter>>)
    requires op != NOT
    requires forall i | 0 <= i < |nodes| && nodes[i].Some? :: Normal(nodes[i].value)
    ensures Combine(op, nodes).Some? ==> Normal(Combine(op, nodes).value)
  {
    SomesMembers(nodes);
    var kept := Somes(nodes);
    forall j | 0 <= j < |kept| ensures Normal(kept[j]) {
      assert kept[j] in kept;
    }
  }

  lemma NotNormal(node: Option<Filter>)
    requires node.Some? ==> Normal(node.value)
    ensures node.Some? ==> Normal(Not(node).value)
  {
    if node.Some? && !NotRooted(node.value) {
      var f := Op(NOT, [node.value]);
      assert f.args[0] == node.value;
      assert Not(node) == Some(f);
    }
  }

  /** Whatever a branch holds, the combined tree holds. */
  lemma CombineOccurs(op: Operator, nodes: seq<Option<Filter>>, part: Filter, at: nat)
    requires at < |nodes| && OccursIn(part, nodes[at])
    ensures OccursIn(part, Combine(op, nodes))
  {
    SomesMembers(nodes);
    var kept := Somes(nodes);
    assert nodes[at] == Some(nodes[at].value);
    var j :| 0 <= j < |kept| && kept[j] == nodes[at].value;
    if |kept| >= 2 {
      assert Op(op, kept).args[j] == kept[j];
    }
  }

  lemma NotOccurs(node: Option<Filter>, part: Filter)
    requires OccursIn(part, node) && !NotRooted(part)
    ensures OccursIn(part, Not(node))
  {
    var f := node.value;
    if f.Op? && f.op == NOT && |f.args| == 1 {
      assert part != f;
    } else {
      assert Op(NOT, [f]).args[0] == f;
    }
  }

  lemma CombineOne(op: Operator, node: Option<Filter>)
    ensures Combine(op, [node]) == node && Combine(op, [None, node]) == node
  {
    assert Somes([node]) == (if node.Some? then [node.value] else []) + Somes([node][1..]);
    assert [None, node][1..] == [node];
    assert Somes([None, node]) == Somes([node]);
  }
}
