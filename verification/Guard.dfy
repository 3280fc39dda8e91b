/** The second, independent check of a finished filter before it reaches the wire:
    `_is_allowed_filter`. It trusts nothing about how the tree was built, so it works on
    the untyped tree a Python caller could hand it. */
module Guard {
  import opened Wrappers
  import opened Calendar
  import opened Filters

  const MAX_TERMS: nat := 256
  const MAX_NODES: nat := MAX_TERMS * 4

  /** A Python value by its exact type. */
  datatype Value = Str | Bool | Int | OtherValue

  /** An arbitrary object in a filter position: a dictionary, or something else. In a
      dictionary, `operator` is the value under that key when there is one,
      `hasConditions` says whether there is a `conditions` key and `conditions` what it
      lists (nothing, for a value that is not a list), and `entries` is every other key. */
  datatype Node =
    | NotADict
    | Dict(operator: Option<string>, hasConditions: bool, conditions: seq<Node>,
           entries: map<string, Value>)

  const OPERATORS: set<string> := {"AND", "OR", "NOT"}

  const STRING_KEYS: set<string> :=
    {"text", "from", "to", "cc", "bcc", "subject", "body", "hasKeyword", "notKeyword",
     "inMailbox", "before", "after"}

  /** The value type each allow-listed condition key must carry. */
  function KeyType(key: string): Option<Value> {
    if key in STRING_KEYS then Some(Str)
    else if key == "hasAttachment" then Some(Bool)
    else if key == "minSize" || key == "maxSize" then Some(Int)
    else None
  }

  predicate IsOperatorNode(node: Node)
    requires node.Dict?
  {
    node.operator.Some? || node.hasConditions
  }

  /** What the loop body rejects about one node on its own. */
  predicate Acceptable(node: Node) {
    && node.Dict?
    && if IsOperatorNode(node) then
         && node.operator.Some? && node.operator.value in OPERATORS
         && node.hasConditions && node.conditions != []
         && node.entries.Keys == {}
       else
         && node.entries.Keys != {}
         && forall key :: key in node.entries ==> KeyType(key) == Some(node.entries[key])
  }

  function Children(node: Node): (kids: seq<Node>) {
    if node.Dict? && node.hasConditions then node.conditions
    else []
  }

  /** Allow-listed keys, operators and value types all the way down. */
  predicate WellFormed(node: Node) {
    && Acceptable(node)
    && (node.hasConditions ==>
          forall i | 0 <= i < |node.conditions| :: WellFormed(node.conditions[i]))
  }

  /** The allow-list itself, in words: an operator node has an operator's name, a list of
      allowed nodes that is not empty, and nothing else; a condition node has one or more of
      these keys and nothing else, each with a value of its own type. */
  lemma AllowedIs(node: Node)
    ensures WellFormed(node) <==>
              && node.Dict?
              && if node.operator.Some? || node.hasConditions then
                   && (node.operator == Some("AND") || node.operator == Some("OR") || node.operator == Some("NOT"))
                   && node.hasConditions && node.conditions != [] && node.entries.Keys == {}
                   && forall i | 0 <= i < |node.conditions| :: WellFormed(node.conditions[i])
                 else
                   && node.entries.Keys != {}
                   && forall key | key in node.entries :: TypedRight(key, node.entries[key])
  {
  }

  predicate TypedRight(key: string, value: Value) {
    match value
    case Str =>
      key in {"text", "from", "to", "cc", "bcc", "subject", "body", "hasKeyword", "notKeyword", "inMailbox", "before", "after"}
    case Bool => key == "hasAttachment"
    case Int => key == "minSize" || key == "maxSize"
    case OtherValue => false
  }

  /** How many nodes a walk of the tree visits. */
  function Nodes(node: Node): (n: nat)
    ensures n >= 1
    decreases node, 1
  {
    match node
    case NotADict => 1
    case Dict(_, hasConditions, kids, _) => if hasConditions then 1 + NodesAll(kids) else 1
  }

  function NodesAll(nodes: seq<Node>): (n: nat)
    decreases nodes, 0
  {
    if nodes == [] then 0 else Nodes(nodes[0]) + NodesAll(nodes[1..])
  }

  predicate AllWellFormed(nodes: seq<Node>) {
    forall i | 0 <= i < |nodes| :: WellFormed(nodes[i])
  }

  lemma {:induction false} NodesAllAppend(a: seq<Node>, b: seq<Node>)
    ensures NodesAll(a + b) == NodesAll(a) + NodesAll(b)
  {
    if a == [] {
      assert a + b == b;
    } else {
      NodesAllAppend(a[1..], b);
      assert (a + b)[1..] == a[1..] + b;
    }
  }

  /** Popping the top of the stack and pushing its children keeps the count of nodes
      still to visit, less the one just visited, and keeps well-formedness. */
  lemma PopPush(rest: seq<Node>, node: Node)
    ensures NodesAll(rest + [node]) == NodesAll(rest) + Nodes(node)
    ensures NodesAll(rest + Children(node)) == NodesAll(rest) + Nodes(node) - 1
    ensures Acceptable(node) ==>
              (AllWellFormed(rest + [node]) <==> AllWellFormed(rest + Children(node)))
  {
    NodesAllAppend(rest, [node]);
    NodesAllAppend(rest, Children(node));
    var before, after := rest + [node], rest + Children(node);
    if Acceptable(node) {
      assert forall i | 0 <= i < |rest| :: before[i] == rest[i] == after[i];
      assert before[|rest|] == node;
      assert forall j | 0 <= j < |Children(node)| :: after[|rest| + j] == Children(node)[j];
      if AllWellFormed(after) {
        forall j | 0 <= j < |Children(node)| ensures WellFormed(Children(node)[j]) {
          assert WellFormed(after[|rest| + j]);
        }
        forall i | 0 <= i < |rest| ensures WellFormed(rest[i]) {
          assert WellFormed(after[i]);
        }
      }
      if AllWellFormed(before) {
        assert WellFormed(before[|rest|]);
        forall i | 0 <= i < |rest| ensures WellFormed(rest[i]) {
          assert WellFormed(before[i]);
        }
      }
    }
  }

  /** The iterative walk: a stack, a visit counter and the first reason to refuse. It
      accepts exactly the well-formed trees of at most 1024 nodes. */
  method IsAllowedFilter(root: Node) returns (allowed: bool)
    ensures allowed <==> WellFormed(root) && Nodes(root) <= 1024
  {
    var stack := [root];
    var visited := 0;
    while stack != []
      invariant visited + NodesAll(stack) == Nodes(root)
      invariant AllWellFormed(stack) <==> WellFormed(root)
      invariant visited <= MAX_NODES
      decreases NodesAll(stack)
    {
      ghost var whole := stack;
      visited := visited + 1;
      var current := stack[|stack| - 1];
      stack := stack[..|stack| - 1];
      assert whole == stack + [current];
      PopPush(stack, current);
      if visited > MAX_NODES {
        return false;
      }
      if !current.Dict? {
        assert whole[|stack|] == current;
        return false;
      }
      if IsOperatorNode(current) {
        if !(current.operator.Some? && current.hasConditions && current.entries.Keys == {}) {
          assert whole[|stack|] == current;
          return false;
        }
        if current.operator.value !in OPERATORS || current.conditions == [] {
          assert whole[|stack|] == current;
          return false;
        }
        stack := stack + current.conditions;
      } else {
        if current.entries.Keys == {} || exists key | key in current.entries :: KeyType(key) != Some(current.entries[key]) {
          assert whole[|stack|] == current;
          return false;
        }
        assert stack + Children(current) == stack;
      }
    }
    return true;
  }

  // ------------------------------------------------ the parser's trees as nodes

  /** The one key a condition is sent under. */
  function KeyName(c: Condition): string {
    match c
    case Matches(KeyText, _) => "text"
    case Matches(KeyFrom, _) => "from"
    case Matches(KeyTo, _) => "to"
    case Matches(KeyCc, _) => "cc"
    case Matches(KeyBcc, _) => "bcc"
    case Matches(KeySubject, _) => "subject"
    case Matches(KeyBody, _) => "body"
    case HasAttachment => "hasAttachment"
    case HasKeyword(_) => "hasKeyword"
    case NotKeyword(_) => "notKeyword"
    case InMailbox(_) => "inMailbox"
    case Before(_) => "before"
    case After(_) => "after"
    case MinSize(_) => "minSize"
    case MaxSize(_) => "maxSize"
  }

  /** The type of the value sent under it. */
  function ValueType(c: Condition): Value {
    match c
    case HasAttachment => Bool
    case MinSize(_) => Int
    case MaxSize(_) => Int
    case _ => Str
  }

  function ConditionNode(c: Condition): Node {
    Dict(None, false, [], map[KeyName(c) := ValueType(c)])
  }

  function OperatorName(op: Operator): string {
    match op
    case AND => "AND"
    case OR => "OR"
    case NOT => "NOT"
  }

  function ToNode(f: Filter): Node
    decreases f, 1
  {
    match f
    case Cond(c) => ConditionNode(c)
    case Op(op, args) => Dict(Some(OperatorName(op)), true, ToNodes(args), map[])
  }

  function ToNodes(fs: seq<Filter>): (nodes: seq<Node>)
    ensures |nodes| == |fs|
    ensures forall i | 0 <= i < |fs| :: nodes[i] == ToNode(fs[i])
    decreases fs, 0
  {
    if fs == [] then [] else [ToNode(fs[0])] + ToNodes(fs[1..])
  }

  /** The key and the type each condition is sent under, and the name of each operator. */
  lemma WireNames(c: Condition)
    ensures ToNode(Cond(c)) == Dict(None, false, [], map[KeyName(c) := ValueType(c)])
    ensures
      KeyName(c) ==
        if c.Matches? then
          if c.key == KeyText then "text" else if c.key == KeyFrom then "from" else if c.key == KeyTo then "to"
          else if c.key == KeyCc then "cc" else if c.key == KeyBcc then "bcc" else if c.key == KeySubject then "subject" else "body"
        else if c.HasAttachment? then "hasAttachment"
        else if c.HasKeyword? then "hasKeyword" else if c.NotKeyword? then "notKeyword"
        else if c.InMailbox? then "inMailbox"
        else if c.Before? then "before" else if c.After? then "after"
        else if c.MinSize? then "minSize" else "maxSize"
    ensures ValueType(c) == if c.HasAttachment? then Bool else if c.MinSize? || c.MaxSize? then Int else Str
  {
  }

  lemma OperatorsOnTheWire(f: Filter)
    requires f.Op?
    ensures
      var node := ToNode(f);
      && node.operator == Some(if f.op == AND then "AND" else if f.op == OR then "OR" else "NOT")
      && node.hasConditions && node.entries == map[] && |node.conditions| == |f.args|
      && forall i | 0 <= i < |f.args| :: node.conditions[i] == ToNode(f.args[i])
  {
  }

  lemma {:induction false} ToNodeCount(f: Filter)
    ensures Nodes(ToNode(f)) == Size(f)
    decreases f, 1
  {
    if f.Op? {
      ToNodesCount(f.args);
    }
  }

  lemma {:induction false} ToNodesCount(fs: seq<Filter>)
    ensures NodesAll(ToNodes(fs)) == SizeAll(fs)
    decreases fs, 0
  {
    if fs != [] {
      ToNodeCount(fs[0]);
      ToNodesCount(fs[1..]);
      assert ToNodes(fs)[1..] == ToNodes(fs[1..]);
    }
  }

  lemma KeyAllowed(c: Condition)
    ensures KeyType(KeyName(c)) == Some(ValueType(c))
  {
  }

  /** Every key the search compiler writes is on the allow-list, so the guard can only
      ever refuse one of its trees for its size. */
  lemma {:induction false} ParserTreesWellFormed(f: Filter)
    requires Normal(f)
    ensures WellFormed(ToNode(f))
  {
    match f
    case Cond(c) =>
      KeyAllowed(c);
      assert KeyName(c) in ConditionNode(c).entries.Keys;
    case Op(op, args) =>
      forall i | 0 <= i < |args| ensures WellFormed(ToNodes(args)[i]) {
        ParserTreesWellFormed(args[i]);
      }
  }
}
