/** What the parser does on every token list there is, balanced or not: nothing typed is
    lost, the tree it builds is in normal form, and its size is bounded by the number of
    terms in it. */
module ParserLaws {
  import opened Wrappers
  import opened Filters
  import opened Guard
  import opened Strings
  import opened Terms
  import opened Tokenizer
  import opened Parser

  /** What the laws need from the term compiler. */
  ghost predicate Lawful(compile: TermCompiler) {
    forall raw: string, negated: bool {:trigger compile(raw, negated)} ::
      var c := compile(raw, negated);
      && c.filter == compile(raw, false).filter
      && (c.filter.Some? ==> Normal(c.filter.value) && Size(c.filter.value) <= 3 && !NotRooted(c.filter.value))
      && (c.choosesScope ==> compile(raw, false).choosesScope)
      && (c.filter.None? && !Blank(raw) ==>
            c.choosesScope || (c.hint.Some? && c.hint.value.token == Some(raw)))
  }

  // ------------------------------------------------------------ nothing lost

  /** How many terms come before a position: the number of the term there, if there is
      one. */
  function TermsBefore(toks: seq<Token>, pos: nat): (n: nat)
    requires pos <= |toks|
    decreases pos
  {
    if pos == 0 then 0 else TermsBefore(toks, pos - 1) + if toks[pos - 1].Term? then 1 else 0
  }

  lemma {:induction false} NoTermsBetween(toks: seq<Token>, lo: nat, hi: nat)
    requires lo <= hi <= |toks| && forall i | lo <= i < hi :: !toks[i].Term?
    ensures TermsBefore(toks, lo) == TermsBefore(toks, hi)
    decreases hi
  {
    if lo < hi {
      NoTermsBetween(toks, lo, hi - 1);
    }
  }

  /** How many words of the budget are used once `k` words have gone by. */
  function Used(k: nat): nat {
    if k < MAX_TERMS then k else MAX_TERMS
  }

  /** The parser's count is that of the terms it has read, up to the budget. */
  predicate Numbered(toks: seq<Token>, s: PState) {
    s.pos <= |toks| && s.terms == Used(TermsBefore(toks, s.pos))
  }

  /** Everything compiling a term produced is there: its condition in the tree, its hint
      among the hints, and its choice of scope made. */
  ghost predicate Kept(c: Compiled, nodes: seq<Option<Filter>>, ctx: Ctx) {
    && (c.filter.Some? ==> exists i | 0 <= i < |nodes| :: OccursIn(c.filter.value, nodes[i]))
    && (c.hint.Some? ==> c.hint.value in ctx.hints)
    && (c.choosesScope ==> ctx.scopeExplicit)
    && (c.misbehaves ==> ctx.misbehaved)
  }

  /** What becomes of the `k`-th term. Within the budget it is compiled, under one sign or the
      other, and all of it is kept. Past the budget the reader is told. */
  ghost predicate Accounted(k: nat, raw: string, nodes: seq<Option<Filter>>, ctx: Ctx, compile: TermCompiler) {
    if k < MAX_TERMS then exists negated: bool :: Kept(compile(raw, negated), nodes, ctx)
    else Hint(Approximated, TooLong, None) in ctx.hints
  }

  // ------------------------------------------------------------------- size

  /** A tree's size, with an allowance that makes negation cost nothing. */
  function Load(f: Filter): nat {
    Size(f) + if NotRooted(f) then 2 else 3
  }

  function Loads(fs: seq<Filter>): nat {
    if fs == [] then 0 else Load(fs[0]) + Loads(fs[1..])
  }

  /** How many tokens in a range are terms that compile to a condition. */
  function CompiledIn(toks: seq<Token>, lo: nat, hi: nat, compile: TermCompiler): nat
    requires lo <= hi <= |toks|
    decreases hi
  {
    if lo == hi then 0
    else
      CompiledIn(toks, lo, hi - 1, compile) +
      if toks[hi - 1].Term? && compile(toks[hi - 1].raw, false).filter.Some? then 1 else 0
  }

  lemma {:induction false} CompiledInSplits(toks: seq<Token>, lo: nat, mid: nat, hi: nat, compile: TermCompiler)
    requires lo <= mid <= hi <= |toks|
    ensures CompiledIn(toks, lo, hi, compile) == CompiledIn(toks, lo, mid, compile) + CompiledIn(toks, mid, hi, compile)
    decreases hi
  {
    if mid < hi {
      CompiledInSplits(toks, lo, mid, hi - 1, compile);
    }
  }

  lemma {:induction false} LoadsAppend(a: seq<Filter>, b: seq<Filter>)
    ensures Loads(a + b) == Loads(a) + Loads(b)
  {
    if a == [] {
      assert a + b == b;
    } else {
      LoadsAppend(a[1..], b);
      assert (a + b)[1..] == a[1..] + b;
    }
  }

  lemma {:induction false} SizesWithinLoads(fs: seq<Filter>)
    ensures SizeAll(fs) + 2 * |fs| <= Loads(fs)
  {
    if fs != [] {
      SizesWithinLoads(fs[1..]);
    }
  }

  /** Joining branches under an AND or an OR never adds to the load. */
  lemma CombineLoad(op: Operator, nodes: seq<Option<Filter>>)
    requires op != NOT
    ensures Combine(op, nodes).Some? ==> Load(Combine(op, nodes).value) <= Loads(Somes(nodes))
  {
    SizesWithinLoads(Somes(nodes));
  }

  /** Neither does negation, whether it adds a NOT or takes one away. */
  lemma NotLoad(node: Option<Filter>)
    requires node.Some? ==> Normal(node.value)
    ensures node.Some? ==> Load(Not(node).value) == Load(node.value)
  {
    if node.Some? {
      var f := node.value;
      if NotRooted(f) {
        assert f.args == [f.args[0]];
        assert SizeAll(f.args) == Size(f.args[0]) + SizeAll(f.args[1..]);
      } else {
        assert SizeAll([f]) == Size(f) + SizeAll([f][1..]);
      }
    }
  }

  // ------------------------------------------------------------- the invariant

  /** What every parsing function establishes between the state it starts from and the
      state it returns, about the branches it returns. */
  ghost predicate Fine(toks: seq<Token>, from: PState, nodes: seq<Option<Filter>>, to: PState, compile: TermCompiler) {
    && from.pos <= to.pos <= |toks|
    && (forall i | 0 <= i < |nodes| && nodes[i].Some? :: Normal(nodes[i].value))
    && Loads(Somes(nodes)) <= 6 * CompiledIn(toks, from.pos, to.pos, compile)
    && Grows(from.ctx, to.ctx)
    && (Numbered(toks, from) ==> Numbered(toks, to) && AllAccounted(toks, from.pos, to.pos, nodes, to.ctx, compile))
  }

  ghost predicate AllAccounted(toks: seq<Token>, lo: nat, hi: nat, nodes: seq<Option<Filter>>, ctx: Ctx, compile: TermCompiler)
    requires lo <= hi <= |toks|
  {
    forall i | lo <= i < hi && toks[i].Term? :: Accounted(TermsBefore(toks, i), toks[i].raw, nodes, ctx, compile)
  }

  predicate Grows(from: Ctx, to: Ctx) {
    && from.hints <= to.hints
    && (from.scopeExplicit ==> to.scopeExplicit)
    && (from.misbehaved ==> to.misbehaved)
    && (Distinct(from.hints) ==> Distinct(to.hints))
  }

  lemma KeptLater(c: Compiled, nodes: seq<Option<Filter>>, more: seq<Option<Filter>>, ctx: Ctx, later: Ctx)
    requires Kept(c, nodes, ctx) && Grows(ctx, later)
    requires forall i | 0 <= i < |nodes| :: nodes[i] in more
    ensures Kept(c, more, later)
  {
    if c.filter.Some? {
      var i :| 0 <= i < |nodes| && OccursIn(c.filter.value, nodes[i]);
      var j :| 0 <= j < |more| && more[j] == nodes[i];
      assert OccursIn(c.filter.value, more[j]);
    }
  }

  lemma AccountedLater(k: nat, raw: string, nodes: seq<Option<Filter>>, more: seq<Option<Filter>>, ctx: Ctx, later: Ctx, compile: TermCompiler)
    requires Accounted(k, raw, nodes, ctx, compile) && Grows(ctx, later)
    requires forall i | 0 <= i < |nodes| :: nodes[i] in more
    ensures Accounted(k, raw, more, later, compile)
  {
    hide Kept;
    if k < MAX_TERMS {
      var negated :| Kept(compile(raw, negated), nodes, ctx);
      KeptLater(compile(raw, negated), nodes, more, ctx, later);
    }
  }

  lemma FineThen(toks: seq<Token>, a: PState, first: seq<Option<Filter>>, b: PState, rest: seq<Option<Filter>>, c: PState, compile: TermCompiler)
    requires Fine(toks, a, first, b, compile) && Fine(toks, b, rest, c, compile)
    ensures Fine(toks, a, first + rest, c, compile)
  {
    hide Accounted;
    CompiledInSplits(toks, a.pos, b.pos, c.pos, compile);
    SomesAppend(first, rest);
    LoadsAppend(Somes(first), Somes(rest));
    if Numbered(toks, a) {
      forall i | a.pos <= i < c.pos && toks[i].Term? ensures Accounted(TermsBefore(toks, i), toks[i].raw, first + rest, c.ctx, compile) {
        if i < b.pos {
          AccountedLater(TermsBefore(toks, i), toks[i].raw, first, first + rest, b.ctx, c.ctx, compile);
        } else {
          AccountedLater(TermsBefore(toks, i), toks[i].raw, rest, first + rest, c.ctx, c.ctx, compile);
        }
      }
    }
  }

  /** Reading past one token that is not a term, leaving nothing but perhaps a hint. */
  lemma FineSkip(toks: seq<Token>, a: PState, b: PState, compile: TermCompiler)
    requires a.pos <= b.pos <= |toks| && Grows(a.ctx, b.ctx) && a.terms == b.terms
    requires forall i | a.pos <= i < b.pos :: !toks[i].Term?
    ensures Fine(toks, a, [], b, compile) && Fine(toks, a, [None], b, compile)
  {
    NoTermsBetween(toks, a.pos, b.pos);
    var none: seq<Option<Filter>> := [None];
    assert none[1..] == [];
    assert Somes(none) == [] + Somes(none[1..]);
  }

  lemma FineCombine(toks: seq<Token>, a: PState, nodes: seq<Option<Filter>>, b: PState, op: Operator, compile: TermCompiler)
    requires Fine(toks, a, nodes, b, compile) && op != NOT
    ensures Fine(toks, a, [Combine(op, nodes)], b, compile)
  {
    var node := Combine(op, nodes);
    CombineNormal(op, nodes);
    CombineLoad(op, nodes);
    SomesOne(node);
    if Numbered(toks, a) {
      forall i | a.pos <= i < b.pos && toks[i].Term? ensures Accounted(TermsBefore(toks, i), toks[i].raw, [node], b.ctx, compile) {
        AccountedCombine(TermsBefore(toks, i), toks[i].raw, nodes, op, b.ctx, compile);
      }
    }
  }

  lemma AccountedCombine(k: nat, raw: string, nodes: seq<Option<Filter>>, op: Operator, ctx: Ctx, compile: TermCompiler)
    requires Accounted(k, raw, nodes, ctx, compile) && op != NOT
    ensures Accounted(k, raw, [Combine(op, nodes)], ctx, compile)
  {
    if k < MAX_TERMS {
      var negated :| Kept(compile(raw, negated), nodes, ctx);
      var c := compile(raw, negated);
      if c.filter.Some? {
        var j :| 0 <= j < |nodes| && OccursIn(c.filter.value, nodes[j]);
        CombineOccurs(op, nodes, c.filter.value, j);
        assert OccursIn(c.filter.value, [Combine(op, nodes)][0]);
      }
      assert Kept(compile(raw, negated), [Combine(op, nodes)], ctx);
    }
  }

  lemma AccountedNegate(k: nat, raw: string, node: Option<Filter>, n: nat, ctx: Ctx, compile: TermCompiler)
    requires Accounted(k, raw, [node], ctx, compile) && Lawful(compile)
    ensures Accounted(k, raw, [Negate(node, n)], ctx, compile)
  {
    if k < MAX_TERMS {
      var negated :| Kept(compile(raw, negated), [node], ctx);
      var c := compile(raw, negated);
      if c.filter.Some? {
        assert !NotRooted(c.filter.value);
        assert OccursIn(c.filter.value, [node][0]);
        NotOccurs(node, c.filter.value);
        assert OccursIn(c.filter.value, [Negate(node, n)][0]);
      }
      assert Kept(compile(raw, negated), [Negate(node, n)], ctx);
    }
  }

  lemma SomesOne(node: Option<Filter>)
    ensures Loads(Somes([node])) == if node.Some? then Load(node.value) else 0
  {
    assert [node][1..] == [];
    assert Somes([node]) == (if node.Some? then [node.value] else []) + [];
    if node.Some? {
      assert Somes([node])[1..] == [];
    }
  }

  lemma FineNegate(toks: seq<Token>, a: PState, node: Option<Filter>, b: PState, n: nat, compile: TermCompiler)
    requires Fine(toks, a, [node], b, compile) && Lawful(compile)
    ensures Fine(toks, a, [Negate(node, n)], b, compile)
  {
    var result := Negate(node, n);
    assert node.Some? ==> Normal([node][0].value);
    NotNormal(node);
    NotLoad(node);
    SomesOne(node);
    SomesOne(result);
    if Numbered(toks, a) {
      forall i | a.pos <= i < b.pos && toks[i].Term? ensures Accounted(TermsBefore(toks, i), toks[i].raw, [result], b.ctx, compile) {
        AccountedNegate(TermsBefore(toks, i), toks[i].raw, node, n, b.ctx, compile);
      }
    }
  }

  lemma FineTerm(toks: seq<Token>, s: PState, n: nat, flipped: bool, compile: TermCompiler)
    requires s.pos < |toks| && toks[s.pos].Term? && !Blank(toks[s.pos].raw) && Lawful(compile)
    ensures
      var r := TermOf(toks[s.pos].raw, s.Advance(), n, flipped, compile);
      Fine(toks, s, [r.0], r.1, compile)
  {
    var raw := toks[s.pos].raw;
    var r := TermOf(raw, s.Advance(), n, flipped, compile);
    assert CompiledIn(toks, s.pos, s.pos, compile) == 0;
    if s.terms >= MAX_TERMS {
      FineSkipTerm(toks, s, r.1, compile);
    } else {
      var c := compile(raw, flipped);
      assert c.filter == compile(raw, false).filter;
      SomesOne(c.filter);
      if c.filter.Some? {
        assert OccursIn(c.filter.value, [c.filter][0]);
      }
      assert Kept(c, [c.filter], r.1.ctx);
      assert Accounted(TermsBefore(toks, s.pos), raw, [c.filter], r.1.ctx, compile) || TermsBefore(toks, s.pos) >= MAX_TERMS;
      assert Fine(toks, s, [c.filter], r.1, compile);
      FineNegate(toks, s, c.filter, r.1, n, compile);
    }
  }

  lemma FineSkipTerm(toks: seq<Token>, s: PState, t: PState, compile: TermCompiler)
    requires s.pos < |toks| && t.pos == s.pos + 1 && Grows(s.ctx, t.ctx)
    requires toks[s.pos].Term? && t.terms == s.terms >= MAX_TERMS
    requires Hint(Approximated, TooLong, None) in t.ctx.hints
    ensures Fine(toks, s, [None], t, compile)
  {
    SomesOne(None);
  }

  // ------------------------------------------------------- over every token list

  lemma {:induction false} SequenceFine(toks: seq<Token>, s: PState, depth: nat, inGroup: bool, negated: bool, compile: TermCompiler)
    requires s.pos <= |toks| && NoBlankTerms(toks) && Lawful(compile)
    ensures
      var r := SequenceOf(toks, s, depth, inGroup, negated, compile);
      Fine(toks, s, r.0, r.1, compile)
    decreases |toks| - s.pos, 4
  {
    hide Fine, OrSequenceOf;
    if s.pos == |toks| || (toks[s.pos] == Close && inGroup) {
      FineSkip(toks, s, s, compile);
    } else if toks[s.pos] == Close {
      var t := s.Advance().Hint(StrayClose, ")");
      var r := SequenceOf(toks, t, depth, inGroup, negated, compile);
      FineSkip(toks, s, t, compile);
      SequenceFine(toks, t, depth, inGroup, negated, compile);
      FineThen(toks, s, [], t, r.0, r.1, compile);
      assert [] + r.0 == r.0;
    } else {
      var first := OrSequenceOf(toks, s, depth, negated, compile);
      var rest := SequenceOf(toks, first.1, depth, inGroup, negated, compile);
      OrSequenceFine(toks, s, depth, negated, compile);
      FineCombine(toks, s, first.0, first.1, OR, compile);
      SequenceFine(toks, first.1, depth, inGroup, negated, compile);
      FineThen(toks, s, [Combine(OR, first.0)], first.1, rest.0, rest.1, compile);
    }
  }

  lemma {:induction false} OrSequenceFine(toks: seq<Token>, s: PState, depth: nat, negated: bool, compile: TermCompiler)
    requires s.pos <= |toks| && NoBlankTerms(toks) && Lawful(compile)
    ensures
      var r := OrSequenceOf(toks, s, depth, negated, compile);
      Fine(toks, s, r.0, r.1, compile)
    decreases |toks| - s.pos, 3
  {
    hide Fine, UnaryOf, MoreAlternatives;
    var first := UnaryOf(toks, s, depth, negated, compile);
    var rest := MoreAlternatives(toks, first.1, depth, negated, compile);
    UnaryFine(toks, s, depth, negated, compile);
    MoreFine(toks, first.1, depth, negated, compile);
    FineThen(toks, s, [first.0], first.1, rest.0, rest.1, compile);
  }

  lemma {:induction false} MoreFine(toks: seq<Token>, s: PState, depth: nat, negated: bool, compile: TermCompiler)
    requires s.pos <= |toks| && NoBlankTerms(toks) && Lawful(compile)
    ensures
      var r := MoreAlternatives(toks, s, depth, negated, compile);
      Fine(toks, s, r.0, r.1, compile)
    decreases |toks| - s.pos, 2
  {
    hide Fine, UnaryOf, MoreAlternatives;
    AlternativeStep(toks, s, depth, negated, compile);
    if At(toks, s.pos) != Some(OrWord) {
      FineSkip(toks, s, s, compile);
    } else {
      var dropped := NothingToOr(At(toks, s.pos + 1));
      var t := if dropped then s.Advance().Hint(MissingOrSide, "OR") else s.Advance();
      FineSkip(toks, s, t, compile);
      if dropped {
        var r := MoreAlternatives(toks, t, depth, negated, compile);
        MoreFine(toks, t, depth, negated, compile);
        FineThen(toks, s, [], t, r.0, r.1, compile);
        assert [] + r.0 == r.0;
      } else {
        var next := UnaryOf(toks, t, depth, negated, compile);
        var rest := MoreAlternatives(toks, next.1, depth, negated, compile);
        UnaryFine(toks, t, depth, negated, compile);
        FineThen(toks, s, [], t, [next.0], next.1, compile);
        assert [] + [next.0] == [next.0];
        MoreFine(toks, next.1, depth, negated, compile);
        FineThen(toks, s, [next.0], next.1, rest.0, rest.1, compile);
      }
    }
  }

  lemma {:induction false} UnaryFine(toks: seq<Token>, s: PState, depth: nat, negated: bool, compile: TermCompiler)
    requires s.pos <= |toks| && NoBlankTerms(toks) && Lawful(compile)
    ensures
      var r := UnaryOf(toks, s, depth, negated, compile);
      Fine(toks, s, [r.0], r.1, compile)
    decreases |toks| - s.pos, 1
  {
    hide Fine, GroupOf, TermOf;
    var n := MinusCount(toks, s.pos);
    var flipped := negated != (n % 2 == 1);
    var t := s.Advance(n);
    var r := UnaryOf(toks, s, depth, negated, compile);
    if t.pos == |toks| || toks[t.pos] == Close || toks[t.pos] == OrWord {
      FineSkip(toks, s, r.1, compile);
    } else {
      FineSkip(toks, s, t, compile);
      if toks[t.pos] == Open {
        GroupFine(toks, t, depth, n, flipped, compile);
      } else {
        FineTerm(toks, t, n, flipped, compile);
      }
      FineThen(toks, s, [], t, [r.0], r.1, compile);
      assert [] + [r.0] == [r.0];
    }
  }

  lemma {:induction false} GroupFine(toks: seq<Token>, s: PState, depth: nat, n: nat, flipped: bool, compile: TermCompiler)
    requires s.pos < |toks| && toks[s.pos] == Open && NoBlankTerms(toks) && Lawful(compile)
    ensures
      var r := GroupOf(toks, s, depth, n, flipped, compile);
      Fine(toks, s, [r.0], r.1, compile)
    decreases |toks| - s.pos, 0
  {
    hide Fine, SequenceOf, Combine, Negate;
    var r := GroupOf(toks, s, depth, n, flipped, compile);
    if depth >= MAX_GROUP_DEPTH {
      FineSkip(toks, s, r.1, compile);
    } else {
      var inside := SequenceOf(toks, s.Advance(), depth + 1, true, flipped, compile);
      var node := Combine(AND, inside.0);
      InsideFine(toks, s, depth, flipped, compile);
      FineSkip(toks, inside.1, r.1, compile);
      FineThen(toks, s, [node], inside.1, [], r.1, compile);
      assert [node] + [] == [node];
      FineNegate(toks, s, node, r.1, n, compile);
    }
  }

  lemma {:induction false} InsideFine(toks: seq<Token>, s: PState, depth: nat, flipped: bool, compile: TermCompiler)
    requires s.pos < |toks| && toks[s.pos] == Open && NoBlankTerms(toks) && Lawful(compile) && depth < MAX_GROUP_DEPTH
    ensures
      var inside := SequenceOf(toks, s.Advance(), depth + 1, true, flipped, compile);
      Fine(toks, s, [Combine(AND, inside.0)], inside.1, compile)
    decreases |toks| - s.pos - 1, 5
  {
    hide Fine, SequenceOf, Combine;
    var t := s.Advance();
    var inside := SequenceOf(toks, t, depth + 1, true, flipped, compile);
    FineSkip(toks, s, t, compile);
    SequenceFine(toks, t, depth + 1, true, flipped, compile);
    FineCombine(toks, t, inside.0, inside.1, AND, compile);
    assert [] + [Combine(AND, inside.0)] == [Combine(AND, inside.0)];
    FineThen(toks, s, [], t, [Combine(AND, inside.0)], inside.1, compile);
  }

  /** The parse of a whole token list, from a context that already holds some hints. */
  function ParseOf(toks: seq<Token>, hints: seq<Hint>, compile: TermCompiler): (r: (Option<Filter>, PState)) {
    var r := SequenceOf(toks, PState(0, 0, Ctx(hints, false, false)), 0, false, false, compile);
    (Combine(AND, r.0), r.1)
  }

  /** For every token list: the whole of it is read; each of the first 256 terms is
      compiled and all it compiles to is kept, and if there are more the reader is told;
      no hint is repeated; and the tree, when there is one, is in normal form and has at
      most 6n - 2 nodes, where n counts the terms that compile to a condition. */
  lemma ParseLaws(toks: seq<Token>, hints: seq<Hint>, compile: TermCompiler)
    requires NoBlankTerms(toks) && Lawful(compile) && Distinct(hints)
    ensures
      var (node, end) := ParseOf(toks, hints, compile);
      var n := CompiledIn(toks, 0, |toks|, compile);
      && end.pos == |toks|
      && (forall i | 0 <= i < |toks| && toks[i].Term? :: Accounted(TermsBefore(toks, i), toks[i].raw, [node], end.ctx, compile))
      && hints <= end.ctx.hints && Distinct(end.ctx.hints)
      && (node.Some? ==> Normal(node.value) && n >= 1 && Size(node.value) <= 6 * n - 2)
  {
    var start := PState(0, 0, Ctx(hints, false, false));
    var r := SequenceOf(toks, start, 0, false, false, compile);
    SequenceFine(toks, start, 0, false, false, compile);
    FineCombine(toks, start, r.0, r.1, AND, compile);
    var node := Combine(AND, r.0);
    SomesOne(node);
    assert node.Some? ==> Normal([node][0].value);
  }
}
