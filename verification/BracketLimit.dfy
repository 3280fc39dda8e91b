/** What the limit on brackets costs. Up to 24 deep the parser reads the grammar; any
    deeper, dropping a bracket can drop the minus sign in front of it, and the reader is
    always told. */
module BracketLimit {
  import opened Wrappers
  import opened Filters
  import opened Guard
  import opened Terms
  import opened Tokenizer
  import opened Parser
  import opened ParserLaws
  import opened Meaning

  /** What the reader is told when a bracket is dropped. */
  const TOO_MANY: Hint := Hint(Unbalanced, TooManyBrackets, Some("("))

  // ------------------------------------------------- a hint once left stays left

  lemma {:induction false} SequenceKeeps(h: Hint, toks: seq<Token>, s: PState, depth: nat, inGroup: bool, negated: bool, compile: TermCompiler)
    requires s.pos <= |toks| && h in s.ctx.hints
    ensures h in SequenceOf(toks, s, depth, inGroup, negated, compile).1.ctx.hints
    decreases |toks| - s.pos, 4
  {
    hide SequenceOf, OrSequenceOf, Combine;
    SequenceStep(toks, s, depth, inGroup, negated, compile);
    if s.pos == |toks| || (toks[s.pos] == Close && inGroup) {
    } else if toks[s.pos] == Close {
      SequenceKeeps(h, toks, s.Advance().Hint(StrayClose, ")"), depth, inGroup, negated, compile);
    } else {
      OrSequenceKeeps(h, toks, s, depth, negated, compile);
      SequenceKeeps(h, toks, OrSequenceOf(toks, s, depth, negated, compile).1, depth, inGroup, negated, compile);
    }
  }

  lemma {:induction false} OrSequenceKeeps(h: Hint, toks: seq<Token>, s: PState, depth: nat, negated: bool, compile: TermCompiler)
    requires s.pos <= |toks| && h in s.ctx.hints
    ensures h in OrSequenceOf(toks, s, depth, negated, compile).1.ctx.hints
    decreases |toks| - s.pos, 3
  {
    hide UnaryOf, MoreAlternatives;
    UnaryKeeps(h, toks, s, depth, negated, compile);
    MoreKeeps(h, toks, UnaryOf(toks, s, depth, negated, compile).1, depth, negated, compile);
  }

  lemma {:induction false} MoreKeeps(h: Hint, toks: seq<Token>, s: PState, depth: nat, negated: bool, compile: TermCompiler)
    requires s.pos <= |toks| && h in s.ctx.hints
    ensures h in MoreAlternatives(toks, s, depth, negated, compile).1.ctx.hints
    decreases |toks| - s.pos, 2
  {
    hide UnaryOf, MoreAlternatives;
    AlternativeStep(toks, s, depth, negated, compile);
    if At(toks, s.pos) != Some(OrWord) {
    } else if NothingToOr(At(toks, s.pos + 1)) {
      MoreKeeps(h, toks, s.Advance().Hint(MissingOrSide, "OR"), depth, negated, compile);
    } else {
      UnaryKeeps(h, toks, s.Advance(), depth, negated, compile);
      MoreKeeps(h, toks, UnaryOf(toks, s.Advance(), depth, negated, compile).1, depth, negated, compile);
    }
  }

  lemma {:induction false} UnaryKeeps(h: Hint, toks: seq<Token>, s: PState, depth: nat, negated: bool, compile: TermCompiler)
    requires s.pos <= |toks| && h in s.ctx.hints
    ensures h in UnaryOf(toks, s, depth, negated, compile).1.ctx.hints
    decreases |toks| - s.pos, 1
  {
    hide UnaryOf, GroupOf, TermOf;
    var n := MinusCount(toks, s.pos);
    UnaryStep(toks, s, n, depth, negated, compile);
    var flipped, t := negated != (n % 2 == 1), s.Advance(n);
    if At(toks, t.pos) == Some(Open) {
      GroupKeeps(h, toks, t, depth, n, flipped, compile);
    } else if t.pos < |toks| && toks[t.pos].Term? {
      TermKeeps(h, toks[t.pos].raw, t.Advance(), n, flipped, compile);
    }
  }

  lemma TermKeeps(h: Hint, raw: string, s: PState, n: nat, flipped: bool, compile: TermCompiler)
    requires h in s.ctx.hints
    ensures h in TermOf(raw, s, n, flipped, compile).1.ctx.hints
  {
  }

  lemma {:induction false} GroupKeeps(h: Hint, toks: seq<Token>, s: PState, depth: nat, n: nat, flipped: bool, compile: TermCompiler)
    requires s.pos < |toks| && h in s.ctx.hints
    ensures h in GroupOf(toks, s, depth, n, flipped, compile).1.ctx.hints
    decreases |toks| - s.pos, 0
  {
    hide SequenceOf, Combine, Negate;
    if depth < MAX_GROUP_DEPTH {
      SequenceKeeps(h, toks, s.Advance(), depth + 1, true, flipped, compile);
    }
  }

  // ------------------------------------------------------ too deep, and told so

  lemma {:induction false} SequenceTooDeep(q: Query, toks: seq<Token>, s: PState, depth: nat, inGroup: bool, negated: bool, compile: TermCompiler)
    requires Placed(Print(q), toks, s.pos) && depth <= MAX_GROUP_DEPTH < depth + Depth(q)
    ensures TOO_MANY in SequenceOf(toks, s, depth, inGroup, negated, compile).1.ctx.hints
    decreases q, 0
  {
    hide SequenceOf, OrSequenceOf, Combine, Placed, PrintAlternatives, ElaborateAlternatives;
    var head, tail := q.head, q.tail;
    var h := PrintAlternatives(head);
    PlacedSplit(h, Print(tail), toks, s.pos);
    PlacedAt(h, toks, s.pos, 0);
    SequenceStep(toks, s, depth, inGroup, negated, compile);
    if depth + DepthAlternatives(head) > MAX_GROUP_DEPTH {
      OrSequenceTooDeep(head, toks, s, depth, negated, compile);
      SequenceKeeps(TOO_MANY, toks, OrSequenceOf(toks, s, depth, negated, compile).1, depth, inGroup, negated, compile);
    } else {
      TailNotOr(tail, toks, s.pos + |h|);
      OrSequenceReads(head, toks, s, depth, negated, compile);
      SequenceTooDeep(tail, toks, ElaborateAlternatives(head, s, negated, compile).1, depth, inGroup, negated, compile);
    }
  }

  lemma TailNotOr(tail: Query, toks: seq<Token>, pos: nat)
    requires Placed(Print(tail), toks, pos) && tail != Nothing
    ensures At(toks, pos) != Some(OrWord)
  {
    PlacedAt(Print(tail), toks, pos, 0);
  }

  lemma {:induction false} OrSequenceTooDeep(a: Alternatives, toks: seq<Token>, s: PState, depth: nat, negated: bool, compile: TermCompiler)
    requires Placed(PrintAlternatives(a), toks, s.pos) && depth <= MAX_GROUP_DEPTH < depth + DepthAlternatives(a)
    ensures s.pos <= |toks| && TOO_MANY in OrSequenceOf(toks, s, depth, negated, compile).1.ctx.hints
    decreases a, 0
  {
    hide UnaryOf, MoreAlternatives, Placed, ElaborateUnary, SequenceOf, OrSequenceOf;
    assert s.(pos := s.pos - 0) == s;
    PlacedAt(PrintAlternatives(a), toks, s.pos, 0);
    OrSequenceStep(toks, s, depth, negated, compile);
    match a
    case One(u) =>
      UnaryTooDeep(u, 0, toks, s, depth, negated, compile);
      MoreKeeps(TOO_MANY, toks, UnaryOf(toks, s, depth, negated, compile).1, depth, negated, compile);
    case Either(u, rest) =>
      EitherPlaced(u, rest, toks, s.pos);
      var first := UnaryOf(toks, s, depth, negated, compile);
      if depth + DepthUnary(u) > MAX_GROUP_DEPTH {
        UnaryTooDeep(u, 0, toks, s, depth, negated, compile);
        MoreKeeps(TOO_MANY, toks, first.1, depth, negated, compile);
      } else {
        UnaryReads(u, 0, toks, s, depth, negated, compile);
        AlternativeStep(toks, first.1, depth, negated, compile);
        OrSequenceTooDeep(rest, toks, first.1.Advance(), depth, negated, compile);
        OrSequenceStep(toks, first.1.Advance(), depth, negated, compile);
      }
  }

  /** A run of alternatives is its first and then the rest of the loop. */
  lemma OrSequenceStep(toks: seq<Token>, s: PState, depth: nat, negated: bool, compile: TermCompiler)
    requires s.pos <= |toks|
    ensures
      var first := UnaryOf(toks, s, depth, negated, compile);
      var rest := MoreAlternatives(toks, first.1, depth, negated, compile);
      OrSequenceOf(toks, s, depth, negated, compile) == ([first.0] + rest.0, rest.1)
  {
  }

  lemma {:induction false} UnaryTooDeep(u: Unary, n: nat, toks: seq<Token>, s: PState, depth: nat, negated: bool, compile: TermCompiler)
    requires n <= s.pos && Placed(PrintUnary(u), toks, s.pos) && depth <= MAX_GROUP_DEPTH < depth + DepthUnary(u)
    requires forall i | s.pos - n <= i < s.pos <= |toks| :: toks[i] == Minus
    ensures s.pos <= |toks| && TOO_MANY in UnaryOf(toks, s.(pos := s.pos - n), depth, negated, compile).1.ctx.hints
    decreases u, 0
  {
    hide UnaryOf, GroupOf, TermOf, SequenceOf, Placed;
    PlacedAt(PrintUnary(u), toks, s.pos, 0);
    match u
    case Negated(inner) =>
      PlacedSplit([Minus], PrintUnary(inner), toks, s.pos);
      UnaryTooDeep(inner, n + 1, toks, s.Advance(), depth, negated, compile);
    case Brackets(q) =>
      AfterMinuses(toks, s, n, depth, negated, compile);
      GroupTooDeep(q, n, toks, s, depth, negated != (n % 2 == 1), compile);
  }

  lemma {:induction false} GroupTooDeep(q: Query, n: nat, toks: seq<Token>, s: PState, depth: nat, flipped: bool, compile: TermCompiler)
    requires Placed(PrintUnary(Brackets(q)), toks, s.pos) && depth <= MAX_GROUP_DEPTH < depth + 1 + Depth(q)
    ensures s.pos < |toks| && TOO_MANY in GroupOf(toks, s, depth, n, flipped, compile).1.ctx.hints
    decreases q, 1
  {
    hide SequenceOf, Placed, Combine, Negate, Print;
    PlacedAt(PrintUnary(Brackets(q)), toks, s.pos, 0);
    if depth < MAX_GROUP_DEPTH {
      assert PrintUnary(Brackets(q)) == [Open] + (Print(q) + [Close]);
      PlacedSplit([Open], Print(q) + [Close], toks, s.pos);
      PlacedSplit(Print(q), [Close], toks, s.pos + 1);
      SequenceTooDeep(q, toks, s.Advance(), depth + 1, true, flipped, compile);
    }
  }

  // ------------------------------------------------- within the limit, not told

  /** A term compiler with nothing to say about brackets. */
  ghost predicate Quiet(compile: TermCompiler) {
    forall raw: string, negated: bool {:trigger compile(raw, negated)} :: compile(raw, negated).hint != Some(TOO_MANY)
  }

  lemma {:induction false} ElaborateQuiet(q: Query, s: PState, negated: bool, compile: TermCompiler)
    requires Quiet(compile) && TOO_MANY !in s.ctx.hints
    ensures TOO_MANY !in Elaborate(q, s, negated, compile).1.ctx.hints
    decreases q, 0
  {
    hide Combine, Negate;
    match q
    case Nothing =>
    case And(head, tail) =>
      AlternativesQuiet(head, s, negated, compile);
      ElaborateQuiet(tail, ElaborateAlternatives(head, s, negated, compile).1, negated, compile);
  }

  lemma {:induction false} AlternativesQuiet(a: Alternatives, s: PState, negated: bool, compile: TermCompiler)
    requires Quiet(compile) && TOO_MANY !in s.ctx.hints
    ensures TOO_MANY !in ElaborateAlternatives(a, s, negated, compile).1.ctx.hints
    decreases a, 0
  {
    hide Combine, Negate;
    match a
    case One(u) => UnaryQuiet(u, 0, s, negated, compile);
    case Either(u, rest) =>
      UnaryQuiet(u, 0, s, negated, compile);
      AlternativesQuiet(rest, ElaborateUnary(u, 0, s, negated, compile).1.Advance(), negated, compile);
  }

  lemma {:induction false} UnaryQuiet(u: Unary, n: nat, s: PState, negated: bool, compile: TermCompiler)
    requires Quiet(compile) && TOO_MANY !in s.ctx.hints
    ensures TOO_MANY !in ElaborateUnary(u, n, s, negated, compile).1.ctx.hints
    decreases u, 0
  {
    hide Combine, Negate;
    match u
    case Word(raw) =>
    case Negated(inner) => UnaryQuiet(inner, n + 1, s.Advance(), negated, compile);
    case Brackets(q) => ElaborateQuiet(q, s.Advance(), negated != (n % 2 == 1), compile);
  }

  /** The reader is told that brackets were dropped exactly when the query is more than 24
      deep; and a reader who is not told got the filter the query means. */
  lemma ToldExactlyWhenTooDeep(q: Query, hints: seq<Hint>, compile: TermCompiler)
    requires Lawful(compile) && Quiet(compile) && TOO_MANY !in hints
    ensures
      var (node, end) := ParseOf(Print(q), hints, compile);
      && (TOO_MANY in end.ctx.hints <==> Depth(q) > 24)
      && (TOO_MANY !in end.ctx.hints ==> forall m :: Verdict(node, m) == Means(q, 0, m, compile))
  {
    hide SequenceOf, Elaborate, Means;
    var start := PState(0, 0, Ctx(hints, false, false));
    assert Print(q)[0..0 + |Print(q)|] == Print(q);
    if Depth(q) <= MAX_GROUP_DEPTH {
      SequenceReads(q, Print(q), start, 0, false, false, compile);
      ElaborateQuiet(q, start, false, compile);
      ParsePrinted(q, hints, compile);
    } else {
      SequenceTooDeep(q, Print(q), start, 0, false, false, compile);
    }
  }

  // -------------------------------------------------------- what is lost with it

  function Only(u: Unary): Query {
    And(One(u), Nothing)
  }

  /** `-(word)` inside `k` more brackets. */
  function Deep(k: nat, raw: string): Unary {
    if k == 0 then Negated(Brackets(Only(Word(raw)))) else Brackets(Only(Deep(k - 1, raw)))
  }

  function Times(token: Token, n: nat): (toks: seq<Token>)
    ensures |toks| == n && forall i | 0 <= i < n :: toks[i] == token
  {
    if n == 0 then [] else [token] + Times(token, n - 1)
  }

  lemma {:induction false} TimesTail(token: Token, n: nat)
    ensures Times(token, n) + [token] == Times(token, n + 1)
  {
    if n > 0 {
      TimesTail(token, n - 1);
    }
  }

  lemma OnlyPrints(u: Unary)
    ensures Print(Only(u)) == PrintUnary(u) && Depth(Only(u)) == DepthUnary(u)
  {
    assert Print(Nothing) == [] && PrintAlternatives(One(u)) == PrintUnary(u);
    assert Depth(Nothing) == 0 && DepthAlternatives(One(u)) == DepthUnary(u);
  }

  lemma OnlyMeans(u: Unary, m: Message, compile: TermCompiler)
    ensures Means(Only(u), 0, m, compile) == MeansUnary(u, 0, m, compile)
  {
    assert MeansAlternatives(One(u), 0, m, compile) == MeansUnary(u, 0, m, compile);
  }

  lemma {:induction false} DeepPrints(k: nat, raw: string)
    ensures PrintUnary(Deep(k, raw)) == Times(Open, k) + [Minus, Open, Term(raw), Close] + Times(Close, k)
    ensures DepthUnary(Deep(k, raw)) == k + 1
  {
    if k == 0 {
      OnlyPrints(Word(raw));
      assert PrintUnary(Word(raw)) == [Term(raw)] && DepthUnary(Word(raw)) == 0;
      assert PrintUnary(Brackets(Only(Word(raw)))) == [Open] + [Term(raw)] + [Close];
      assert DepthUnary(Brackets(Only(Word(raw)))) == 1;
    } else {
      DeepPrints(k - 1, raw);
      OnlyPrints(Deep(k - 1, raw));
      TimesTail(Close, k - 1);
      var before, middle, after := Times(Open, k - 1), [Minus, Open, Term(raw), Close], Times(Close, k - 1);
      assert [Open] + (before + middle + after) + [Close] == ([Open] + before) + middle + (after + [Close]);
    }
  }

  /** Twenty-four brackets, a minus sign, one bracket too many, a word. */
  ghost predicate TooDeep(toks: seq<Token>, raw: string) {
    && |toks| == 52
    && (forall i | 0 <= i < 24 :: toks[i] == Open)
    && toks[24] == Minus && toks[25] == Open && toks[26] == Term(raw)
    && (forall i | 27 <= i < 52 :: toks[i] == Close)
  }

  /** At the limit: the bracket goes, and its minus with it; the word after it stays. */
  lemma Innermost(toks: seq<Token>, raw: string, s: PState, compile: TermCompiler)
    requires TooDeep(toks, raw) && s.pos == 24 && s.terms == 0
    ensures
      var r := SequenceOf(toks, s, MAX_GROUP_DEPTH, true, false, compile);
      Combine(AND, r.0) == compile(raw, false).filter && r.1.pos == 27
  {
    var f := compile(raw, false).filter;
    var dropped := UnaryOf(toks, s, 24, false, compile);
    assert MinusCount(toks, 25) == 0 && MinusCount(toks, 24) == 1;
    assert dropped == GroupOf(toks, s.Advance(1), 24, 1, true, compile);
    assert dropped == (None, s.Advance(1).Advance().Hint(TooManyBrackets, "("));
    var word := UnaryOf(toks, dropped.1, 24, false, compile);
    assert word.0 == f && word.1.pos == 27;
    CombineOne(OR, None);
    CombineOne(OR, f);
    CombineOne(AND, f);
    OneAlternative(toks, s, 24, false, compile);
    OneAlternative(toks, dropped.1, 24, false, compile);
    assert SequenceOf(toks, word.1, 24, true, false, compile) == ([], word.1);
    assert SequenceOf(toks, dropped.1, 24, true, false, compile) == ([f] + [], word.1);
    assert SequenceOf(toks, s, 24, true, false, compile).0 == [None] + ([f] + []);
    assert [None] + ([f] + []) == [None, f];
  }

  lemma OneAlternative(toks: seq<Token>, s: PState, depth: nat, negated: bool, compile: TermCompiler)
    requires s.pos <= |toks|
    requires At(toks, UnaryOf(toks, s, depth, negated, compile).1.pos) != Some(OrWord)
    ensures
      var u := UnaryOf(toks, s, depth, negated, compile);
      OrSequenceOf(toks, s, depth, negated, compile) == ([u.0], u.1)
  {
    var u := UnaryOf(toks, s, depth, negated, compile);
    assert MoreAlternatives(toks, u.1, depth, negated, compile) == ([], u.1);
    assert [u.0] + [] == [u.0];
  }

  lemma {:induction false} EachLevel(toks: seq<Token>, raw: string, s: PState, compile: TermCompiler)
    requires TooDeep(toks, raw) && s.pos <= 24 && s.terms == 0
    requires compile(raw, false).filter.Some?
    ensures
      var r := SequenceOf(toks, s, s.pos, s.pos > 0, false, compile);
      Combine(AND, r.0) == compile(raw, false).filter && (s.pos > 0 ==> r.1.pos == 51 - s.pos)
    decreases 24 - s.pos
  {
    if s.pos == 24 {
      Innermost(toks, raw, s, compile);
    } else {
      EachLevel(toks, raw, s.Advance(), compile);
      GroupLevel(toks, raw, s, compile);
      var f := compile(raw, false).filter;
      var u := UnaryOf(toks, s, s.pos, false, compile);
      OneAlternative(toks, s, s.pos, false, compile);
      CombineOne(OR, f);
      CombineOne(AND, f);
      var rest := SequenceOf(toks, u.1, s.pos, s.pos > 0, false, compile);
      if s.pos == 0 {
        AfterStrayClose(toks, u.1, compile);
      }
      assert rest.0 == [];
      assert SequenceOf(toks, s, s.pos, s.pos > 0, false, compile) == ([f] + rest.0, rest.1);
      assert [f] + [] == [f];
    }
  }

  lemma GroupLevel(toks: seq<Token>, raw: string, s: PState, compile: TermCompiler)
    requires TooDeep(toks, raw) && s.pos < 24 && compile(raw, false).filter.Some?
    requires
      var r := SequenceOf(toks, s.Advance(), s.pos + 1, true, false, compile);
      Combine(AND, r.0) == compile(raw, false).filter && r.1.pos == 50 - s.pos
    ensures
      var u := UnaryOf(toks, s, s.pos, false, compile);
      u.0 == compile(raw, false).filter && u.1.pos == 51 - s.pos
  {
    hide SequenceOf;
    assert toks[s.pos] == Open && MinusCount(toks, s.pos) == 0;
    assert s.Advance(0) == s;
    assert UnaryOf(toks, s, s.pos, false, compile) == GroupOf(toks, s, s.pos, 0, false, compile);
  }

  lemma AfterStrayClose(toks: seq<Token>, s: PState, compile: TermCompiler)
    requires s.pos + 1 == |toks| && toks[s.pos] == Close
    ensures SequenceOf(toks, s, 0, false, false, compile).0 == []
  {
    var t := s.Advance().Hint(StrayClose, ")");
    assert SequenceOf(toks, t, 0, false, false, compile) == ([], t);
  }

  /** So 24 is not a figure of caution: of a query 25 brackets deep the parser can build
      the exact opposite. */
  lemma MinusLostAtTheLimit(raw: string, hints: seq<Hint>, compile: TermCompiler, m: Message)
    requires Lawful(compile) && compile(raw, false).filter.Some?
    ensures
      var q := Only(Deep(MAX_GROUP_DEPTH, raw));
      var node := ParseOf(Print(q), hints, compile).0;
      && Depth(q) == MAX_GROUP_DEPTH + 1
      && node == compile(raw, false).filter
      && Means(q, 0, m, compile) == Some(!Eval(node.value, m))
  {
    hide SequenceOf;
    var q := Only(Deep(24, raw));
    DeepPrints(24, raw);
    OnlyPrints(Deep(24, raw));
    assert TooDeep(Print(q), raw);
    EachLevel(Print(q), raw, PState(0, 0, Ctx(hints, false, false)), compile);
    DeepMeans(24, raw, m, compile);
  }

  lemma {:induction false} DeepMeans(k: nat, raw: string, m: Message, compile: TermCompiler)
    requires compile(raw, false).filter.Some?
    ensures Means(Only(Deep(k, raw)), 0, m, compile) == Some(!Eval(compile(raw, false).filter.value, m))
  {
    if k == 0 {
      OnlyMeans(Word(raw), m, compile);
      assert MeansUnary(Brackets(Only(Word(raw))), 0, m, compile) == Some(Eval(compile(raw, false).filter.value, m));
    } else {
      DeepMeans(k - 1, raw, m, compile);
    }
    OnlyMeans(Deep(k, raw), m, compile);
  }
}
