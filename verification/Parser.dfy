/** The recursive-descent parser over a token list. The functions say what each level of
    the grammar reads from a position; the class is the parser as it runs, moving one
    position over the tokens. */
module Parser {
  import opened Wrappers
  import opened Filters
  import opened Guard
  import opened Terms
  import opened Tokenizer

  /** How one term compiles, under an odd number of negations or not. */
  type TermCompiler = (string, bool) -> Compiled

  const MAX_GROUP_DEPTH: nat := 24

  /** The parser's mutable state: its position, the term budget used, and the context. */
  datatype PState = PState(pos: nat, terms: nat, ctx: Ctx) {
    function Advance(n: nat := 1): PState {
      this.(pos := pos + n)
    }

    function Hint(topic: Topic, token: string): PState {
      this.(ctx := WithHint(ctx, Unbalanced, topic, Some(token)))
    }
  }

  function At(toks: seq<Token>, pos: nat): Option<Token> {
    if pos < |toks| then Some(toks[pos]) else None
  }

  /** What follows an `OR` that has nothing on its right. */
  predicate NothingToOr(token: Option<Token>) {
    token.None? || token.value == Close || token.value == OrWord
  }

  function MinusCount(toks: seq<Token>, pos: nat): (n: nat)
    requires pos <= |toks|
    ensures pos + n <= |toks|
    ensures forall i | pos <= i < pos + n :: toks[i] == Minus
    ensures At(toks, pos + n) != Some(Minus)
    decreases |toks| - pos
  {
    if pos < |toks| && toks[pos] == Minus then 1 + MinusCount(toks, pos + 1) else 0
  }

  /** The branches of an implicit AND, up to the end of the input or of the group. */
  function SequenceOf(toks: seq<Token>, s: PState, depth: nat, inGroup: bool, negated: bool, compile: TermCompiler)
    : (r: (seq<Option<Filter>>, PState))
    requires s.pos <= |toks|
    ensures s.pos <= r.1.pos <= |toks|
    ensures At(toks, r.1.pos).None? || (inGroup && At(toks, r.1.pos) == Some(Close))
    decreases |toks| - s.pos, 4
  {
    if s.pos == |toks| then ([], s)
    else if toks[s.pos] == Close then
      if inGroup then ([], s)
      else SequenceOf(toks, s.Advance().Hint(StrayClose, ")"), depth, inGroup, negated, compile)
    else
      var first := OrSequenceOf(toks, s, depth, negated, compile);
      var rest := SequenceOf(toks, first.1, depth, inGroup, negated, compile);
      ([Combine(OR, first.0)] + rest.0, rest.1)
  }

  /** The alternatives of one OR. */
  function OrSequenceOf(toks: seq<Token>, s: PState, depth: nat, negated: bool, compile: TermCompiler)
    : (r: (seq<Option<Filter>>, PState))
    requires s.pos <= |toks|
    ensures s.pos <= r.1.pos <= |toks|
    ensures s.pos < |toks| && toks[s.pos] != Close ==> s.pos < r.1.pos
    decreases |toks| - s.pos, 3
  {
    var first := UnaryOf(toks, s, depth, negated, compile);
    var rest := MoreAlternatives(toks, first.1, depth, negated, compile);
    ([first.0] + rest.0, rest.1)
  }

  function MoreAlternatives(toks: seq<Token>, s: PState, depth: nat, negated: bool, compile: TermCompiler)
    : (r: (seq<Option<Filter>>, PState))
    requires s.pos <= |toks|
    ensures s.pos <= r.1.pos <= |toks|
    decreases |toks| - s.pos, 2
  {
    if At(toks, s.pos) != Some(OrWord) then ([], s)
    else if NothingToOr(At(toks, s.pos + 1)) then
      MoreAlternatives(toks, s.Advance().Hint(MissingOrSide, "OR"), depth, negated, compile)
    else
      var next := UnaryOf(toks, s.Advance(), depth, negated, compile);
      var rest := MoreAlternatives(toks, next.1, depth, negated, compile);
      ([next.0] + rest.0, rest.1)
  }

  lemma Regroup<T>(whole: seq<T>, done: seq<T>, next: T, rest: seq<T>, later: seq<T>)
    requires whole == done + rest && rest == [next] + later
    ensures whole == (done + [next]) + later
  {
  }

  /** What one turn of the loop over alternatives does to the rest of the loop. */
  lemma AlternativeStep(toks: seq<Token>, s: PState, depth: nat, negated: bool, compile: TermCompiler)
    requires s.pos <= |toks|
    ensures
      var whole := MoreAlternatives(toks, s, depth, negated, compile);
      if At(toks, s.pos) != Some(OrWord) then whole == ([], s)
      else if NothingToOr(At(toks, s.pos + 1)) then
        whole == MoreAlternatives(toks, s.Advance().Hint(MissingOrSide, "OR"), depth, negated, compile)
      else
        var next := UnaryOf(toks, s.Advance(), depth, negated, compile);
        var rest := MoreAlternatives(toks, next.1, depth, negated, compile);
        whole == ([next.0] + rest.0, rest.1)
  {
  }

  /** The same for one turn of the loop over branches. */
  lemma SequenceStep(toks: seq<Token>, s: PState, depth: nat, inGroup: bool, negated: bool, compile: TermCompiler)
    requires s.pos <= |toks|
    ensures
      var whole := SequenceOf(toks, s, depth, inGroup, negated, compile);
      if s.pos == |toks| || (toks[s.pos] == Close && inGroup) then whole == ([], s)
      else if toks[s.pos] == Close then
        whole == SequenceOf(toks, s.Advance().Hint(StrayClose, ")"), depth, inGroup, negated, compile)
      else
        var first := OrSequenceOf(toks, s, depth, negated, compile);
        var rest := SequenceOf(toks, first.1, depth, inGroup, negated, compile);
        whole == ([Combine(OR, first.0)] + rest.0, rest.1)
  {
  }

  /** Minus signs, then a term or a group. */
  function UnaryOf(toks: seq<Token>, s: PState, depth: nat, negated: bool, compile: TermCompiler)
    : (r: (Option<Filter>, PState))
    requires s.pos <= |toks|
    ensures s.pos <= r.1.pos <= |toks|
    ensures s.pos < |toks| && toks[s.pos] != Close ==> s.pos < r.1.pos
    decreases |toks| - s.pos, 1
  {
    var n := MinusCount(toks, s.pos);
    var flipped := negated != (n % 2 == 1);
    var t := s.Advance(n);
    if t.pos == |toks| || toks[t.pos] == Close then (None, if n > 0 then t.Hint(BareMinus, "-") else t)
    else
      match toks[t.pos]
      case OrWord => (None, t.Advance().Hint(MissingOrSide, "OR"))
      case Open => GroupOf(toks, t, depth, n, flipped, compile)
      case Term(raw) => TermOf(raw, t.Advance(), n, flipped, compile)
  }

  /** What follows the minus signs decides what a unary is. */
  lemma UnaryStep(toks: seq<Token>, s: PState, n: nat, depth: nat, negated: bool, compile: TermCompiler)
    requires s.pos <= |toks| && n == MinusCount(toks, s.pos)
    ensures
      var flipped, t := negated != (n % 2 == 1), s.Advance(n);
      UnaryOf(toks, s, depth, negated, compile)
      == match At(toks, t.pos)
         case None => (None, if n > 0 then t.Hint(BareMinus, "-") else t)
         case Some(Close) => (None, if n > 0 then t.Hint(BareMinus, "-") else t)
         case Some(OrWord) => (None, t.Advance().Hint(MissingOrSide, "OR"))
         case Some(Open) => GroupOf(toks, t, depth, n, flipped, compile)
         case Some(Term(raw)) => TermOf(raw, t.Advance(), n, flipped, compile)
         case Some(Minus) => UnaryOf(toks, s, depth, negated, compile)
    ensures At(toks, s.pos + n) != Some(Minus)
  {
  }

  /** One term, against the budget. */
  function TermOf(raw: string, s: PState, negations: nat, flipped: bool, compile: TermCompiler)
    : (r: (Option<Filter>, PState))
    ensures r.1.pos == s.pos
  {
    if s.terms >= MAX_TERMS then (None, s.(ctx := WithHint(s.ctx, Approximated, TooLong, None)))
    else
      var c := compile(raw, flipped);
      (Negate(c.filter, negations), s.(terms := s.terms + 1, ctx := Absorb(s.ctx, c)))
  }

  /** A bracketed query; past the depth limit only the bracket itself is dropped. */
  function GroupOf(toks: seq<Token>, s: PState, depth: nat, negations: nat, flipped: bool, compile: TermCompiler)
    : (r: (Option<Filter>, PState))
    requires s.pos < |toks|
    ensures s.pos < r.1.pos <= |toks|
    decreases |toks| - s.pos, 0
  {
    if depth >= MAX_GROUP_DEPTH then (None, s.Advance().Hint(TooManyBrackets, "("))
    else
      var inside := SequenceOf(toks, s.Advance(), depth + 1, true, flipped, compile);
      var node := Combine(AND, inside.0);
      var closed := if inside.1.pos < |toks| then inside.1.Advance() else inside.1.Hint(OpenBracket, "(");
      (Negate(node, negations), if node.None? then closed.Hint(EmptyBrackets, "()") else closed)
  }

  /** The parser at work. */
  class Parser {
    const tokens: seq<Token>
    const compile: TermCompiler
    var pos: nat
    var terms: nat
    var ctx: Ctx

    constructor (tokens: seq<Token>, compile: TermCompiler, hints: seq<Hint>)
      ensures this.tokens == tokens && this.compile == compile
      ensures State() == PState(0, 0, Ctx(hints, false, false))
    {
      this.tokens, this.compile := tokens, compile;
      pos, terms, ctx := 0, 0, Ctx(hints, false, false);
    }

    ghost function State(): PState
      reads this
    {
      PState(pos, terms, ctx)
    }

    method Peek() returns (token: Option<Token>)
      ensures token == At(tokens, pos)
    {
      token := if pos < |tokens| then Some(tokens[pos]) else None;
    }

    method Warn(kind: HintKind, topic: Topic, token: Option<string>)
      modifies `ctx
      ensures ctx == WithHint(old(ctx), kind, topic, token)
    {
      var hint := Hint(kind, topic, token);
      if hint !in ctx.hints {
        ctx := ctx.(hints := ctx.hints + [hint]);
      }
    }

    /** The whole input. */
    method Parse() returns (node: Option<Filter>)
      requires pos == 0
      modifies this
      ensures
        var r := SequenceOf(tokens, old(State()), 0, false, false, compile);
        node == Combine(AND, r.0) && State() == r.1 && pos == |tokens|
    {
      node := Sequence(0, false, false);
    }

    method Sequence(depth: nat, inGroup: bool, negated: bool) returns (node: Option<Filter>)
      requires pos <= |tokens|
      modifies this
      ensures
        var r := SequenceOf(tokens, old(State()), depth, inGroup, negated, compile);
        node == Combine(AND, r.0) && State() == r.1
      decreases |tokens| - pos, 4
    {
      hide SequenceOf, OrSequenceOf, UnaryOf, MoreAlternatives, GroupOf, Combine;
      var branches: seq<Option<Filter>> := [];
      ghost var whole := SequenceOf(tokens, State(), depth, inGroup, negated, compile);
      assert branches + whole.0 == whole.0;
      while true
        invariant old(pos) <= pos <= |tokens|
        invariant
          var rest := SequenceOf(tokens, State(), depth, inGroup, negated, compile);
          whole == (branches + rest.0, rest.1)
        decreases |tokens| - pos
      {
        SequenceStep(tokens, State(), depth, inGroup, negated, compile);
        var token := Peek();
        if token.None? {
          break;
        }
        if token.value == Close {
          if inGroup {
            break;
          }
          pos := pos + 1;
          Warn(Unbalanced, StrayClose, Some(")"));
          continue;
        }
        var before := pos;
        var branch := OrSequence(depth, negated);
        AppendAssociates(branches, [branch], SequenceOf(tokens, State(), depth, inGroup, negated, compile).0);
        branches := branches + [branch];
        if pos == before {
          // A stalled parser would hang a request; no input stalls it.
          assert false;
        }
      }
      assert branches + [] == branches;
      node := Combine(AND, branches);
    }

    method OrSequence(depth: nat, negated: bool) returns (node: Option<Filter>)
      requires pos <= |tokens|
      modifies this
      ensures
        var r := OrSequenceOf(tokens, old(State()), depth, negated, compile);
        node == Combine(OR, r.0) && State() == r.1
      decreases |tokens| - pos, 3
    {
      hide UnaryOf, SequenceOf, GroupOf, MoreAlternatives, Combine;
      ghost var start := State();
      var first := Unary(depth, negated);
      var parts := [first];
      ghost var rest := MoreAlternatives(tokens, State(), depth, negated, compile);
      ghost var alternatives, last := [first] + rest.0, rest.1;
      assert OrSequenceOf(tokens, start, depth, negated, compile) == (alternatives, last);
      while true
        invariant old(pos) <= pos <= |tokens|
        invariant rest == MoreAlternatives(tokens, State(), depth, negated, compile)
        invariant alternatives == parts + rest.0 && last == rest.1
        decreases |tokens| - pos
      {
        ghost var here := State();
        AlternativeStep(tokens, here, depth, negated, compile);
        var token := Peek();
        if token != Some(OrWord) {
          break;
        }
        pos := pos + 1;
        var following := Peek();
        if NothingToOr(following) {
          Warn(Unbalanced, MissingOrSide, Some("OR"));
          continue;
        }
        var part := Unary(depth, negated);
        ghost var later := MoreAlternatives(tokens, State(), depth, negated, compile);
        Regroup(alternatives, parts, part, rest.0, later.0);
        parts, rest := parts + [part], later;
      }
      assert parts + [] == parts;
      node := Combine(OR, parts);
    }

    /** The opening loop of `_unary`. */
    method LeadingMinuses() returns (n: nat)
      requires pos <= |tokens|
      modifies `pos
      ensures n == MinusCount(tokens, old(pos)) && pos == old(pos) + n
    {
      n := 0;
      while true
        invariant pos == old(pos) + n <= |tokens|
        invariant MinusCount(tokens, old(pos)) == n + MinusCount(tokens, pos)
        decreases |tokens| - pos
      {
        var next := Peek();
        if next != Some(Minus) {
          break;
        }
        pos := pos + 1;
        n := n + 1;
      }
    }

    method Unary(depth: nat, negated: bool) returns (node: Option<Filter>)
      requires pos <= |tokens|
      modifies this
      ensures (node, State()) == UnaryOf(tokens, old(State()), depth, negated, compile)
      decreases |tokens| - pos, 1
    {
      hide SequenceOf, OrSequenceOf, MoreAlternatives, GroupOf, TermOf, UnaryOf, MinusCount;
      ghost var start := State();
      var negations := LeadingMinuses();
      UnaryStep(tokens, start, negations, depth, negated, compile);
      var flipped := negated != (negations % 2 == 1);
      var token := Peek();
      if token in {None, Some(Close)} {
        if negations > 0 {
          Warn(Unbalanced, BareMinus, Some("-"));
        }
        return None;
      }
      if token.value == OrWord {
        pos := pos + 1;
        Warn(Unbalanced, MissingOrSide, Some("OR"));
        return None;
      }
      if token.value == Open {
        node := Group(depth, negations, flipped);
        return;
      }
      pos := pos + 1;
      node := Word(token.value.raw, negations, flipped);
    }

    /** The end of `_unary`: one term, if the budget allows. */
    method Word(raw: string, negations: nat, flipped: bool) returns (node: Option<Filter>)
      modifies this
      ensures (node, State()) == TermOf(raw, old(State()), negations, flipped, compile)
    {
      if terms >= MAX_TERMS {
        Warn(Approximated, TooLong, None);
        return None;
      }
      terms := terms + 1;
      var c := compile(raw, flipped);
      if c.hint.Some? {
        Warn(c.hint.value.kind, c.hint.value.topic, c.hint.value.token);
      }
      ctx := ctx.(scopeExplicit := ctx.scopeExplicit || c.choosesScope,
                  misbehaved := ctx.misbehaved || c.misbehaves);
      node := Negate(c.filter, negations);
    }

    method Group(depth: nat, negations: nat, flipped: bool) returns (node: Option<Filter>)
      requires pos < |tokens|
      modifies this
      ensures (node, State()) == GroupOf(tokens, old(State()), depth, negations, flipped, compile)
      decreases |tokens| - pos, 0
    {
      hide SequenceOf, OrSequenceOf, MoreAlternatives, UnaryOf, Negate, Combine;
      pos := pos + 1;
      assert State() == old(State()).Advance();
      if depth >= MAX_GROUP_DEPTH {
        Warn(Unbalanced, TooManyBrackets, Some("("));
        return None;
      }
      var inside := Sequence(depth + 1, true, flipped);
      ghost var within := State();
      var closing := Peek();
      if closing == Some(Close) {
        pos := pos + 1;
      } else {
        Warn(Unbalanced, OpenBracket, Some("("));
      }
      assert State() == if within.pos < |tokens| then within.Advance() else within.Hint(OpenBracket, "(");
      if inside.None? {
        Warn(Unbalanced, EmptyBrackets, Some("()"));
      }
      node := Negate(inside, negations);
    }
  }
}
