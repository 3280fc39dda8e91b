/** From the text of a search box to the filter, the hints and the scope: `parse_query`. */
module SearchQuery {
  import opened Wrappers
  import opened Filters
  import opened Guard
  import opened Strings
  import opened Terms
  import opened Tokenizer
  import opened Parser
  import opened ParserLaws
  import opened Meaning
  import opened BracketLimit
  import Operators
  import Malformed

  /** `exclude` is the default scope's Spam and Trash, for the caller to leave out. */
  datatype ParseResult = ParseResult(
    filter: Option<Filter>, hints: seq<Hint>, exclude: set<string>, scopeWasExplicit: bool)

  function CompilerFor(env: Env): TermCompiler {
    (raw, negated) => CompileTerm(raw, negated, env)
  }

  function AddHints(hints: seq<Hint>, more: seq<Hint>): (r: seq<Hint>)
    ensures hints <= r
    ensures Distinct(hints) ==> Distinct(r)
    decreases |more|
  {
    if more == [] then hints else AddHints(AddHint(hints, more[0]), more[1..])
  }

  /** The hints there are before the parser starts. */
  function EarlyHints(text: string): (hints: seq<Hint>)
    ensures Distinct(hints)
  {
    var (clean, cut) := Prepare(text);
    AddHints(if cut then [Hint(Approximated, TooLong, None)] else [], QuoteHints(clean))
  }

  function Parsed(text: string, env: Env): (Option<Filter>, PState) {
    ParseOf(Tokens(Prepare(text).0), EarlyHints(text), CompilerFor(env))
  }

  /** The guard's answer: a tree of more than 1024 nodes is discarded. */
  function Guarded(node: Option<Filter>, ctx: Ctx): (Option<Filter>, Ctx) {
    if node.Some? && Size(node.value) > MAX_NODES then
      (Some(MatchNothing()), WithHint(ctx, UnknownOperator, NotUnderstood, None))
    else (node, ctx)
  }

  function RoleIds(env: Env): set<string> {
    (if Resolved(env.byRole("spam")).Some? then {Resolved(env.byRole("spam")).value} else {}) +
    (if Resolved(env.byRole("trash")).Some? then {Resolved(env.byRole("trash")).value} else {})
  }

  /** Filling in the scope and reading off the result. */
  function Scoped(node: Option<Filter>, ctx: Ctx, env: Env): ParseResult {
    if ctx.scopeExplicit then ParseResult(node, ctx.hints, {}, true)
    else
      var confused := Misbehaves(env.byRole("spam")) || Misbehaves(env.byRole("trash"));
      var hints :=
        if confused && !ctx.misbehaved then
          AddHint(ctx.hints, Hint(ScopeUncertain, SpamAndTrashUnknown, None))
        else ctx.hints;
      ParseResult(node, hints, RoleIds(env), false)
  }

  function ResultOf(text: string, env: Env): ParseResult {
    var (node, end) := Parsed(text, env);
    var (kept, ctx) := Guarded(node, end.ctx);
    Scoped(kept, ctx, env)
  }

  lemma CompilerIsLawful(env: Env)
    ensures Lawful(CompilerFor(env))
  {
    forall raw: string, negated: bool
      ensures
        var c := CompileTerm(raw, negated, env);
        && c.filter == TermFilter(raw, env)
        && (c.filter.Some? ==> Normal(c.filter.value) && Size(c.filter.value) <= 3 && !NotRooted(c.filter.value))
        && (c.choosesScope ==> CompileTerm(raw, false, env).choosesScope)
        && (c.filter.None? && !Blank(raw) ==>
              c.choosesScope || (c.hint.Some? && c.hint.value.token == Some(raw)))
    {
      TermLaws(raw, negated, env);
      TermLaws(raw, false, env);
    }
  }

  /** `parse_query`: prepare, tokenize, parse, guard, scope. */
  method ParseQuery(text: string, env: Env) returns (result: ParseResult)
    ensures result == ResultOf(text, env)
  {
    hide CompileTerm, SequenceOf, Tokens, QuoteHints, Prepare, MatchNothing;
    var (clean, cut) := Prepare(text);
    var tokens, quoteHints := Tokenize(clean);
    var hints := AddHints(if cut then [Hint(Approximated, TooLong, None)] else [], quoteHints);
    var parser := new Parser(tokens, CompilerFor(env), hints);
    var node := parser.Parse();
    if node.Some? {
      var allowed := IsAllowedFilter(ToNode(node.value));
      ToNodeCount(node.value);
      CompilerIsLawful(env);
      TokensNotBlank(clean);
      ParseLaws(tokens, hints, CompilerFor(env));
      ParserTreesWellFormed(node.value);
      if !allowed {
        parser.Warn(UnknownOperator, NotUnderstood, None);
        node := Some(MatchNothing());
      }
    }
    result := Scoped(node, parser.ctx, env);
  }

  // --------------------------------------------------------------- main results

  /** A text that spells a query: prepared and split into tokens it is the query's own,
      however it is spaced. */
  predicate Spells(text: string, q: Query) {
    Tokens(Prepare(text).0) == Print(q)
  }

  /** A query that has a text: words the tokenizer leaves whole, within the length limit and
      without control characters. */
  predicate Typeable(q: Query) {
    && (forall i | 0 <= i < |Print(q)| :: Writable(Print(q)[i]))
    && |Written(Print(q))| <= MAX_QUERY_CHARS
    && forall i | 0 <= i < |Written(Print(q))| :: !IsControl(Written(Print(q))[i])
  }

  lemma WrittenSpells(q: Query)
    requires Typeable(q)
    ensures Spells(Written(Print(q)), q)
  {
    hide Tokens, Prepare, Print;
    PrepareKeeps(Written(Print(q)));
    TokensOfWritten(Print(q));
  }

  /** End to end, for every text that spells a query with brackets at most 24 deep: the tree
      built from the text has the query's meaning. What is returned is that tree, and so
      has that meaning, exactly when the tree has at most 1024 nodes; a larger one is
      replaced by a filter that matches nothing, with a hint. The scope is explicit exactly
      when one of the first 256 words is an `in:` or `label:` term with a value under an
      even number of minus signs. */
  lemma TypedQueryMeans(text: string, q: Query, env: Env)
    requires Spells(text, q) && Depth(q) <= MAX_GROUP_DEPTH
    ensures
      var built := Parsed(text, env).0;
      var result := ResultOf(text, env);
      && (forall m :: Verdict(built, m) == Means(q, 0, m, CompilerFor(env)))
      && (if built.Some? && Size(built.value) > 1024 then
            result.filter == Some(MatchNothing()) && Hint(UnknownOperator, NotUnderstood, None) in result.hints
          else result.filter == built)
      && (result.scopeWasExplicit <==>
            exists i | 0 <= i < |Leaves(q, false)| && i < 256 ::
              !Leaves(q, false)[i].1 && IsScopeTerm(Leaves(q, false)[i].0))
      && (result.scopeWasExplicit ==> result.exclude == {})
      && (!result.scopeWasExplicit ==> result.exclude == RoleIds(env))
  {
    hide SequenceOf, Tokens, Prepare, MatchNothing, IsScopeTerm, Means, Print, Leaves;
    var leaves := Leaves(q, false);
    CompilerIsLawful(env);
    ParsePrinted(q, EarlyHints(text), CompilerFor(env));
    forall i | 0 <= i < |leaves|
      ensures CompilerFor(env)(leaves[i].0, leaves[i].1).choosesScope <==> !leaves[i].1 && IsScopeTerm(leaves[i].0)
    {
      TermLaws(leaves[i].0, leaves[i].1, env);
    }
  }

  /** For every text that spells a query, of whatever depth: the reader is told that
      brackets were dropped exactly when the query is more than 24 deep, and if not told
      has a tree with the query's meaning. */
  lemma TypedBrackets(text: string, q: Query, env: Env)
    requires Spells(text, q)
    ensures TOO_MANY in ResultOf(text, env).hints <==> Depth(q) > 24
    ensures TOO_MANY !in ResultOf(text, env).hints ==>
              forall m :: Verdict(Parsed(text, env).0, m) == Means(q, 0, m, CompilerFor(env))
  {
    hide SequenceOf, Tokens, Prepare, Means, Print, CompileTerm, MatchNothing, EarlyHints;
    CompilerIsLawful(env);
    CompilerIsQuiet(env);
    EarlyHintsTopics(text);
    ToldExactlyWhenTooDeep(q, EarlyHints(text), CompilerFor(env));
  }

  lemma CompilerIsQuiet(env: Env)
    ensures Quiet(CompilerFor(env))
  {
    forall raw: string, negated: bool ensures CompileTerm(raw, negated, env).hint != Some(TOO_MANY) {
      ReadingTopic(Read(raw), raw, negated, env);
    }
  }

  lemma {:induction false} AddedHints(hints: seq<Hint>, more: seq<Hint>)
    ensures forall h :: h in AddHints(hints, more) <==> h in hints || h in more
    decreases |more|
  {
    if more != [] {
      var one := AddHint(hints, more[0]);
      AddedHints(one, more[1..]);
      assert forall h :: h in one <==> h in hints || h == more[0];
      assert forall h :: h in more <==> h == more[0] || h in more[1..];
    }
  }

  /** For every text whatever, within the limits or far beyond them: no hint is repeated;
      each of the first 256 terms is compiled and everything it compiled to is there, its
      condition in the tree, its hint and its choice of scope; of any later term, and of
      anything past the length limit, the reader is told; the tree is in normal form with
      at most 6n - 2 nodes for n conditions, and is returned unless it has more than 1024,
      as it never has for up to 171. */
  lemma NothingTypedIsLost(text: string, env: Env)
    ensures
      var toks := Tokens(Prepare(text).0);
      var (node, end) := Parsed(text, env);
      var n := CompiledIn(toks, 0, |toks|, CompilerFor(env));
      var result := ResultOf(text, env);
      && end.pos == |toks|
      && (forall i | 0 <= i < |toks| && toks[i].Term? ::
            Accounted(TermsBefore(toks, i), toks[i].raw, [node], end.ctx, CompilerFor(env)))
      && (|text| > MAX_QUERY_CHARS ==> Hint(Approximated, TooLong, None) in result.hints)
      && (node.Some? ==> Normal(node.value) && n >= 1 && Size(node.value) <= 6 * n - 2)
      && result.filter == (if node.Some? && Size(node.value) > MAX_NODES then Some(MatchNothing()) else node)
      && (n <= 171 ==> result.filter == node)
      && end.ctx.hints <= result.hints && Distinct(result.hints)
  {
    hide SequenceOf, Tokens, Prepare, CompileTerm, Accounted, MatchNothing, Normal, EarlyHints, ResultOf, Parsed;
    CompilerIsLawful(env);
    TokensNotBlank(Prepare(text).0);
    ParsedIs(text, env);
    ParseLaws(Tokens(Prepare(text).0), EarlyHints(text), CompilerFor(env));
    CutIsTold(text);
    ResultKeeps(text, env);
  }

  lemma ParsedIs(text: string, env: Env)
    ensures Parsed(text, env) == ParseOf(Tokens(Prepare(text).0), EarlyHints(text), CompilerFor(env))
  {
  }

  lemma CutIsTold(text: string)
    ensures |text| > MAX_QUERY_CHARS ==> Hint(Approximated, TooLong, None) in EarlyHints(text)
  {
    var cut := Prepare(text).1;
    hide Prepare, QuoteHints;
    AddedHints(if cut then [Hint(Approximated, TooLong, None)] else [], QuoteHints(Prepare(text).0));
  }

  /** What the guard and the scope make of a parse. */
  lemma ResultKeeps(text: string, env: Env)
    ensures
      var (node, end) := Parsed(text, env);
      var result := ResultOf(text, env);
      && result.filter == (if node.Some? && Size(node.value) > MAX_NODES then Some(MatchNothing()) else node)
      && end.ctx.hints <= result.hints
      && (Distinct(end.ctx.hints) ==> Distinct(result.hints))
  {
    hide Parsed, MatchNothing, Size;
  }

  /** For every text whose brackets nest at most 24 deep, however badly formed: of each kind
      of thing that does not fit, the reader is told exactly when there is one. */
  lemma MalformedTold(text: string, env: Env)
    requires Malformed.Shallow(Tokens(Prepare(text).0))
    ensures
      var toks, hints := Tokens(Prepare(text).0), ResultOf(text, env).hints;
      && (Malformed.STRAY in hints <==> exists i | 0 <= i < |toks| :: Malformed.StrayAt(toks, i))
      && (Malformed.UNCLOSED in hints <==> Malformed.Level(toks, |toks|) > 0)
      && (Malformed.BARE in hints <==> exists i | 0 <= i < |toks| :: Malformed.BareAt(toks, i))
      && (Malformed.ONE_SIDED in hints <==> exists i | 0 <= i < |toks| :: Malformed.OneSidedAt(toks, i))
  {
    hide Tokens, Prepare, ResultOf, Parsed, EarlyHints;
    hide Malformed.StrayAt;
    hide Malformed.BareAt;
    hide Malformed.OneSidedAt;
    hide Malformed.Level;
    hide Malformed.Shallow;
    CompilerIsDiscreet(env);
    EarlyHintsTopics(text);
    ParsedIs(text, env);
    Malformed.ToldExactly(Tokens(Prepare(text).0), EarlyHints(text), CompilerFor(env));
    ResultKeeps(text, env);
    ResultAdds(text, env);
  }

  lemma CompilerIsDiscreet(env: Env)
    ensures Malformed.Discreet(CompilerFor(env))
  {
    forall raw: string, negated: bool
      ensures
        var h := CompileTerm(raw, negated, env).hint;
        h.Some? ==> h.value.topic !in {StrayClose, OpenBracket, BareMinus, MissingOrSide}
    {
      ReadingTopic(Read(raw), raw, negated, env);
    }
  }

  lemma EarlyHintsTopics(text: string)
    ensures forall h | h in EarlyHints(text) :: h.topic == OpenQuote || h.topic == TooLong
  {
    hide Prepare;
    QuoteHintsTopic(Prepare(text).0);
    AddedHints(if Prepare(text).1 then [Hint(Approximated, TooLong, None)] else [], QuoteHints(Prepare(text).0));
  }

  lemma {:induction false} QuoteHintsTopic(s: string)
    ensures forall h | h in QuoteHints(s) :: h.topic == OpenQuote
    decreases |s|
  {
    hide FirstLength;
    if s != "" {
      QuoteHintsTopic(s[FirstLength(s)..]);
    }
  }

  /** The guard and the scope add no hint but their own. */
  lemma ResultAdds(text: string, env: Env)
    ensures forall h | h in ResultOf(text, env).hints :: h in Parsed(text, env).1.ctx.hints || h.topic == NotUnderstood || h.topic == SpamAndTrashUnknown
  {
    hide Parsed, MatchNothing, Size;
  }

  // ----------------------------------------------------------------- what is found

  /** A search for one term finds what the term says. */
  lemma OneTermSays(text: string, raw: string, env: Env, m: Message)
    requires Tokens(Prepare(text).0) == [Term(raw)]
    ensures Verdict(ResultOf(text, env).filter, m) == Operators.Says(raw, false, env, m)
    ensures ResultOf(text, env).scopeWasExplicit <==> IsScopeTerm(raw)
  {
    hide Tokens, Prepare, CompileTerm, ResultOf, Parsed, Print, Means, IsScopeTerm, MatchNothing;
    var q := Only(Word(raw));
    OnlyPrints(Word(raw));
    OnlyMeans(Word(raw), m, CompilerFor(env));
    assert Spells(text, q) && Depth(q) == 0 by {
      assert PrintUnary(Word(raw)) == [Term(raw)];
    }
    TypedQueryMeans(text, q, env);
    NothingTypedIsLost(text, env);
    OneLeaf(raw);
    assert Leaves(q, false)[0] == (raw, false);
    assert CompiledIn([Term(raw)], 0, 1, CompilerFor(env)) <= 1;
  }

  lemma OneLeaf(raw: string)
    ensures Leaves(Only(Word(raw)), false) == [(raw, false)]
  {
    assert LeavesAlternatives(One(Word(raw)), false) == LeavesUnary(Word(raw), false) && Leaves(Nothing, false) == [];
  }

  /** So `is:unread` finds the unread mail, and `-is:unread` the rest. */
  lemma UnreadIsFound(env: Env, m: Message)
    ensures Verdict(ResultOf("is:unread", env).filter, m) == Some("$seen" !in m.keywords)
  {
    UnreadTokens();
    hide *;
    OneTermSays("is:unread", "is:unread", env, m);
    UnreadUsed();
    Operators.IsSays("is", "unread", "unread", false, env, m);
    SameWord("unread");
  }

  lemma SameWord(word: string)
    ensures SameLetters(word, word)
  {
  }

  lemma UnreadTokens()
    ensures Tokens(Prepare("is:unread").0) == [Term("is:unread")]
  {
    var text := "is:unread";
    PrepareKeeps(text);
    hide Prepare;
    WordTokens(text, "");
    assert text + "" == text && Tokens("") == [];
  }

  lemma UnreadUsed()
    ensures Operators.Uses("is", "is", "unread", "unread") && Operators.Term("is", "unread") == "is:unread"
  {
    assert Trim("unread");
    StripTrim("unread");
  }

  /** The default scope leaves out Spam and Trash, those of them that there are; a search
      that chose its scope leaves out nothing. */
  lemma DefaultScope(text: string, env: Env, id: string)
    ensures
      var result := ResultOf(text, env);
      id in result.exclude <==>
        && !result.scopeWasExplicit && id != ""
        && (env.byRole("spam") == Found(id) || env.byRole("trash") == Found(id))
  {
    hide Parsed, Guarded;
  }

  /** When one of the two could not be looked up, and no term of the query had that trouble
      before, the reader is told that they may be among the results. */
  lemma ScopeTold(text: string, q: Query, env: Env)
    requires Spells(text, q) && Depth(q) <= MAX_GROUP_DEPTH
    ensures
      var result := ResultOf(text, env);
      var spam, trash := env.byRole("spam"), env.byRole("trash");
      var unsure := !(spam.NoSuch? || (spam.Found? && spam.id != "")) || !(trash.NoSuch? || (trash.Found? && trash.id != ""));
      var noticed := SomeMarks(Misbehaviour, Leaves(q, false), 0, CompilerFor(env));
      if !result.scopeWasExplicit && unsure && !noticed then Hint(ScopeUncertain, SpamAndTrashUnknown, None) in result.hints
      else result.hints == Guarded(Parsed(text, env).0, Parsed(text, env).1.ctx).1.hints
  {
    hide Tokens, Prepare, CompileTerm, SequenceOf, MatchNothing, Print, Means, SomeMarks;
    CompilerIsLawful(env);
    ParsePrinted(q, EarlyHints(text), CompilerFor(env));
  }

  // ---------------------------------------------------- the bounds are attained

  /** `-(... ...)` all the way down, over `n` words: the largest tree `n` words can build. */
  function Bushy(raw: string, n: nat): Unary
    requires n >= 1
  {
    if n == 1 then Negated(Word(raw))
    else Negated(Brackets(And(One(Bushy(raw, n / 2)), And(One(Bushy(raw, n - n / 2)), Nothing))))
  }

  lemma {:induction false} BushyElaborates(raw: string, n: nat, s: PState, negated: bool, compile: TermCompiler)
    requires n >= 1 && s.terms + n <= MAX_TERMS
    requires forall flipped :: compile(raw, flipped).filter == Some(MatchNothing())
    ensures
      var r := ElaborateUnary(Bushy(raw, n), 0, s, negated, compile);
      r.0.Some? && Size(r.0.value) == 6 * n - 2 && NotRooted(r.0.value) && r.1.terms == s.terms + n
    decreases n
  {
    hide MatchNothing;
    MatchNothingShape();
    if n == 1 {
      assert Negate(Some(MatchNothing()), 1) == Some(Op(NOT, [MatchNothing()])) by {
        assert !NotRooted(MatchNothing()) by {
          MatchNothingIsAnd();
        }
      }
      SizeOfOne(MatchNothing());
    } else {
      var left, right := Bushy(raw, n / 2), Bushy(raw, n - n / 2);
      var inner := s.Advance().Advance();
      var flipped := negated != true;
      BushyElaborates(raw, n / 2, inner, flipped, compile);
      var a := ElaborateUnary(left, 0, inner, flipped, compile);
      BushyElaborates(raw, n - n / 2, a.1, flipped, compile);
      var b := ElaborateUnary(right, 0, a.1, flipped, compile);
      PairElaborates(left, right, inner, flipped, compile);
      var pair := Op(AND, [a.0.value, b.0.value]);
      assert Not(Some(pair)) == Some(Op(NOT, [pair]));
      SizeOfOne(pair);
      SizeOfTwo(a.0.value, b.0.value);
    }
  }

  lemma MatchNothingIsAnd()
    ensures MatchNothing().Op? && MatchNothing().op == AND
  {
  }

  lemma SizeOfOne(f: Filter)
    ensures Size(Op(NOT, [f])) == 1 + Size(f)
  {
    assert SizeAll([f]) == Size(f) + SizeAll([f][1..]);
  }

  lemma SizeOfTwo(f: Filter, g: Filter)
    ensures Size(Op(AND, [f, g])) == 1 + Size(f) + Size(g)
  {
    assert SizeAll([f, g]) == Size(f) + SizeAll([f, g][1..]);
    assert [f, g][1..] == [g];
    assert SizeAll([g]) == Size(g) + SizeAll([g][1..]);
  }

  lemma PairElaborates(u: Unary, v: Unary, s: PState, negated: bool, compile: TermCompiler)
    ensures
      var a := ElaborateUnary(u, 0, s, negated, compile);
      var b := ElaborateUnary(v, 0, a.1, negated, compile);
      var r := Elaborate(And(One(u), And(One(v), Nothing)), s, negated, compile);
      && r.1 == b.1
      && (a.0.Some? && b.0.Some? ==> Combine(AND, r.0) == Some(Op(AND, [a.0.value, b.0.value])))
  {
    hide ElaborateUnary;
    var a := ElaborateUnary(u, 0, s, negated, compile);
    var b := ElaborateUnary(v, 0, a.1, negated, compile);
    CombineOne(OR, a.0);
    CombineOne(OR, b.0);
    var tail := And(One(v), Nothing);
    var rest := Elaborate(tail, a.1, negated, compile);
    assert rest == ([b.0], b.1) by {
      assert ElaborateAlternatives(One(v), a.1, negated, compile) == ([b.0], b.1);
      assert Elaborate(Nothing, b.1, negated, compile) == ([], b.1);
      assert [b.0] + [] == [b.0];
    }
    assert ElaborateAlternatives(One(u), s, negated, compile) == ([a.0], a.1);
    assert Elaborate(And(One(u), tail), s, negated, compile) == ([a.0] + rest.0, rest.1);
    if a.0.Some? && b.0.Some? {
      CombineTwo(a.0.value, b.0.value);
      assert [a.0] + [b.0] == [Some(a.0.value), Some(b.0.value)];
    }
  }

  lemma CombineTwo(f: Filter, g: Filter)
    ensures Combine(AND, [Some(f), Some(g)]) == Some(Op(AND, [f, g]))
  {
    var two: seq<Option<Filter>> := [Some(f), Some(g)];
    assert two[1..] == [Some(g)] && two[1..][1..] == [];
    assert Somes(two[1..]) == [g] + Somes(two[1..][1..]);
    assert Somes(two[1..][1..]) == [];
    assert Somes(two) == [f] + Somes(two[1..]) == [f, g];
  }

  lemma {:induction false} BushyDepth(raw: string, n: nat, d: nat)
    requires 1 <= n <= Pow2(d)
    ensures DepthUnary(Bushy(raw, n)) <= d
    decreases d
  {
    if n > 1 {
      BushyDepth(raw, n / 2, d - 1);
      BushyDepth(raw, n - n / 2, d - 1);
      var left, right := Bushy(raw, n / 2), Bushy(raw, n - n / 2);
      var pair := And(One(left), And(One(right), Nothing));
      assert Depth(And(One(right), Nothing)) == DepthAlternatives(One(right)) == DepthUnary(right);
      assert Depth(pair) == Max(DepthAlternatives(One(left)), DepthUnary(right));
      assert DepthUnary(Negated(Brackets(pair))) == DepthUnary(Brackets(pair));
    }
  }

  /** For every n up to the term budget some query of n words builds a tree of exactly
      6n - 2 nodes. */
  lemma SizeBoundAttained(raw: string, n: nat, hints: seq<Hint>, compile: TermCompiler)
    requires 1 <= n <= MAX_TERMS
    requires forall flipped :: compile(raw, flipped).filter == Some(MatchNothing())
    ensures
      var q := And(One(Bushy(raw, n)), Nothing);
      var node := ParseOf(Print(q), hints, compile).0;
      Depth(q) <= MAX_GROUP_DEPTH && node.Some? && Size(node.value) == 6 * n - 2
  {
    hide MatchNothing, ElaborateUnary, SequenceOf;
    var q := And(One(Bushy(raw, n)), Nothing);
    assert Pow2(8) == 256;
    BushyDepth(raw, n, 8);
    var start := PState(0, 0, Ctx(hints, false, false));
    BushyElaborates(raw, n, start, false, compile);
    assert Print(q)[0..0 + |Print(q)|] == Print(q);
    SequenceReads(q, Print(q), start, 0, false, false, compile);
    var only := ElaborateUnary(Bushy(raw, n), 0, start, false, compile);
    CombineOne(OR, only.0);
    assert Elaborate(q, start, false, compile).0 == [only.0] + [];
    assert Somes([only.0]) == [only.0.value] + Somes([only.0][1..]);
  }

  /** `-x -x -x ...`, `n` times. */
  function Copies(raw: string, n: nat): Query {
    if n == 0 then Nothing else And(One(Negated(Word(raw))), Copies(raw, n - 1))
  }

  lemma {:induction false} CopiesElaborate(raw: string, n: nat, s: PState, compile: TermCompiler)
    requires s.terms + n <= MAX_TERMS
    requires forall flipped :: compile(raw, flipped).filter == Some(MatchNothing())
    ensures
      var nodes := Elaborate(Copies(raw, n), s, false, compile).0;
      && |nodes| == n && |Somes(nodes)| == n
      && SizeAll(Somes(nodes)) == 4 * n
  {
    hide MatchNothing;
    if n > 0 {
      MatchNothingShape();
      MatchNothingIsAnd();
      var one := Op(NOT, [MatchNothing()]);
      var word := ElaborateUnary(Negated(Word(raw)), 0, s, false, compile);
      assert word == ElaborateUnary(Word(raw), 1, s.Advance(), false, compile);
      assert word.0 == Some(one);
      CombineOne(OR, word.0);
      SizeOfOne(MatchNothing());
      CopiesElaborate(raw, n - 1, word.1, compile);
      var rest := Elaborate(Copies(raw, n - 1), word.1, false, compile).0;
      var nodes := Elaborate(Copies(raw, n), s, false, compile).0;
      assert nodes == [word.0] + rest;
      assert nodes[1..] == rest;
      assert Somes(nodes) == [one] + Somes(rest);
      assert Somes(nodes)[1..] == Somes(rest);
    }
  }

  lemma {:induction false} CopiesMean(raw: string, n: nat, k: nat, m: Message, compile: TermCompiler)
    requires k + n <= MAX_TERMS
    requires forall flipped :: compile(raw, flipped).filter == Some(MatchNothing())
    ensures Means(Copies(raw, n), k, m, compile) == if n == 0 then None else Some(true)
    decreases n
  {
    if n > 0 {
      var head := One(Negated(Word(raw)));
      assert MeansUnary(Word(raw), k, m, compile) == Some(false);
      assert MeansAlternatives(head, k, m, compile) == Some(true);
      assert WordsUnary(Negated(Word(raw))) == WordsUnary(Word(raw)) == 1;
      assert WordsAlternatives(head) == 1;
      CopiesMean(raw, n - 1, k + 1, m, compile);
    }
  }

  lemma {:induction false} CopiesShallow(raw: string, n: nat)
    ensures Depth(Copies(raw, n)) == 0
  {
    if n > 0 {
      CopiesShallow(raw, n - 1);
      assert DepthUnary(Negated(Word(raw))) == DepthUnary(Word(raw)) == 0;
      assert DepthAlternatives(One(Negated(Word(raw)))) == 0;
    }
  }

  /** 256 negated terms that cannot be resolved, each of which every message satisfies,
      build a tree of 1025 nodes: the query means "everything", and the guard discards it. */
  lemma CopiesTooBig(raw: string, hints: seq<Hint>, compile: TermCompiler, m: Message)
    requires forall flipped :: compile(raw, flipped).filter == Some(MatchNothing())
    ensures
      var q := Copies(raw, MAX_TERMS);
      var (node, end) := ParseOf(Print(q), hints, compile);
      && Depth(q) <= MAX_GROUP_DEPTH
      && node.Some? && Size(node.value) == 1025
      && Means(q, 0, m, compile) == Some(true)
  {
    hide MatchNothing, SequenceOf, Means;
    var q := Copies(raw, MAX_TERMS);
    var start := PState(0, 0, Ctx(hints, false, false));
    CopiesShallow(raw, MAX_TERMS);
    CopiesElaborate(raw, MAX_TERMS, start, compile);
    CopiesMean(raw, MAX_TERMS, 0, m, compile);
    assert Print(q)[0..0 + |Print(q)|] == Print(q);
    SequenceReads(q, Print(q), start, 0, false, false, compile);
  }

  lemma {:induction false} WrittenAppend(a: seq<Token>, b: seq<Token>)
    ensures Written(a + b) == Written(a) + Written(b)
  {
    if a == [] {
      assert a + b == b;
    } else {
      var first := Spelling(a[0]) + " ";
      WrittenAppend(a[1..], b);
      assert (a + b)[0] == a[0] && (a + b)[1..] == a[1..] + b;
      assert Written(a + b) == first + Written(a[1..] + b);
      AppendAssociates(first, Written(a[1..]), Written(b));
    }
  }

  /** Tokens that can be written down, and so many characters of it. */
  ghost predicate Writes(toks: seq<Token>, n: nat) {
    && |Written(toks)| == n
    && (forall i | 0 <= i < |toks| :: Writable(toks[i]))
    && (forall i | 0 <= i < |Written(toks)| :: !IsControl(Written(toks)[i]))
  }

  lemma WritesAppend(a: seq<Token>, m: nat, b: seq<Token>, n: nat)
    requires Writes(a, m) && Writes(b, n)
    ensures Writes(a + b, m + n)
  {
    WrittenAppend(a, b);
  }

  lemma WritesOne(token: Token)
    requires Writable(token) && forall i | 0 <= i < |Spelling(token)| :: !IsControl(Spelling(token)[i])
    ensures Writes([token], |Spelling(token)| + 1)
  {
    assert [token][1..] == [];
    assert Written([token]) == Spelling(token) + " " + "";
  }

  lemma WritesTypeable(q: Query, n: nat)
    requires Writes(Print(q), n) && n <= MAX_QUERY_CHARS
    ensures Typeable(q) && |Written(Print(q))| == n
  {
  }

  lemma {:induction false} CopiesWritten(raw: string, n: nat)
    requires Writable(Term(raw)) && forall i | 0 <= i < |raw| :: !IsControl(raw[i])
    ensures Writes(Print(Copies(raw, n)), (|raw| + 3) * n)
  {
    if n > 0 {
      hide Written, Writes, Print;
      CopiesWritten(raw, n - 1);
      CopiesPrint(raw, n);
      WritesOne(Minus);
      WritesOne(Term(raw));
      WritesAppend([Minus], 2, [Term(raw)], |raw| + 1);
      assert [Minus] + [Term(raw)] == [Minus, Term(raw)];
      WritesAppend([Minus, Term(raw)], |raw| + 3, Print(Copies(raw, n - 1)), (|raw| + 3) * (n - 1));
      assert (|raw| + 3) * n == |raw| + 3 + (|raw| + 3) * (n - 1);
    }
  }

  lemma CopiesPrint(raw: string, n: nat)
    requires n > 0
    ensures Print(Copies(raw, n)) == [Minus, Term(raw)] + Print(Copies(raw, n - 1))
  {
    assert PrintUnary(Word(raw)) == [Term(raw)];
    assert PrintUnary(Negated(Word(raw))) == [Minus, Term(raw)];
    assert PrintAlternatives(One(Negated(Word(raw)))) == [Minus, Term(raw)];
  }

  lemma InXWritable()
    ensures Writable(Term("in:x")) && forall i | 0 <= i < 4 :: !IsControl("in:x"[i])
  {
    assert "in:x"[1..] == "n:x" && "n:x"[1..] == ":x" && ":x"[1..] == "x" && "x"[1..] == "";
    assert TermLength("x", false) == 1 && TermLength(":x", false) == 2 && TermLength("n:x", false) == 3;
    assert !QuoteOpen("x", false) && !QuoteOpen(":x", false) && !QuoteOpen("n:x", false);
  }

  /** The guard is reachable from a search box, on every account with no label called x:
      1792 characters, `- in:x` 256 times over, ask for everything and are answered with a
      filter that matches nothing. */
  lemma GuardIsReachable(env: Env, m: Message)
    requires Resolved(env.byLabel("x")).None?
    ensures
      var q := Copies("in:x", MAX_TERMS);
      var text := Written(Print(q));
      && |text| == 1792 && Spells(text, q) && Depth(q) == 0
      && Means(q, 0, m, CompilerFor(env)) == Some(true)
      && ResultOf(text, env).filter == Some(MatchNothing()) && !Eval(MatchNothing(), m)
      && Hint(UnknownOperator, NotUnderstood, None) in ResultOf(text, env).hints
  {
    hide SequenceOf, Tokens, Prepare, MatchNothing, Means, Print, Leaves, ResultOf, Spells, Copies, IsScopeTerm, CompileTerm;
    var q := Copies("in:x", MAX_TERMS);
    var text := Written(Print(q));
    InXWritable();
    CopiesWritten("in:x", MAX_TERMS);
    WritesTypeable(q, 1792);
    CopiesShallow("in:x", MAX_TERMS);
    WrittenSpells(q);
    UnresolvableTerm(env, false);
    UnresolvableTerm(env, true);
    assert forall flipped :: CompilerFor(env)("in:x", flipped).filter == Some(MatchNothing());
    CopiesTooBig("in:x", EarlyHints(text), CompilerFor(env), m);
    TypedQueryMeans(text, q, env);
    SpellsParsed(text, q, env);
    NothingMatches(m);
  }

  lemma SpellsParsed(text: string, q: Query, env: Env)
    requires Spells(text, q)
    ensures Parsed(text, env) == ParseOf(Print(q), EarlyHints(text), CompilerFor(env))
  {
  }

  lemma NothingMatches(m: Message)
    ensures !Eval(MatchNothing(), m)
  {
  }

  lemma {:induction false} WritesTimes(token: Token, n: nat)
    requires token == Open || token == Close
    ensures Writes(Times(token, n), 2 * n)
  {
    if n > 0 {
      WritesOne(token);
      WritesTimes(token, n - 1);
      WritesAppend([token], 2, Times(token, n - 1), 2 * n - 2);
    }
  }

  lemma DeepTypeable(raw: string)
    requires Writable(Term(raw)) && (forall i | 0 <= i < |raw| :: !IsControl(raw[i])) && |raw| + 103 <= MAX_QUERY_CHARS
    ensures Typeable(Only(Deep(MAX_GROUP_DEPTH, raw)))
  {
    hide Writes, Deep, Times, Print, PrintUnary;
    DeepPrints(24, raw);
    OnlyPrints(Deep(24, raw));
    WritesTimes(Open, 24);
    WritesTimes(Close, 24);
    WritesMiddle(raw);
    var middle := [Minus, Open, Term(raw), Close];
    WritesAppend(Times(Open, 24), 48, middle, |raw| + 7);
    WritesAppend(Times(Open, 24) + middle, |raw| + 55, Times(Close, 24), 48);
    WritesTypeable(Only(Deep(24, raw)), |raw| + 103);
  }

  lemma WritesMiddle(raw: string)
    requires Writable(Term(raw)) && forall i | 0 <= i < |raw| :: !IsControl(raw[i])
    ensures Writes([Minus, Open, Term(raw), Close], |raw| + 7)
  {
    hide Writes;
    WritesOne(Minus);
    WritesOne(Open);
    WritesOne(Term(raw));
    WritesOne(Close);
    WritesAppend([Minus], 2, [Open], 2);
    assert [Minus] + [Open] == [Minus, Open];
    WritesAppend([Term(raw)], |raw| + 1, [Close], 2);
    assert [Term(raw)] + [Close] == [Term(raw), Close];
    WritesAppend([Minus, Open], 4, [Term(raw), Close], |raw| + 3);
    assert [Minus, Open] + [Term(raw), Close] == [Minus, Open, Term(raw), Close];
  }

  /** A bracket too many turns a search round, on every account: twenty-four brackets, a
      minus sign, one bracket more and a word ask for what does not match the word, and are
      answered with what does. */
  lemma MinusLostInText(raw: string, env: Env, m: Message)
    requires Writable(Term(raw)) && (forall i | 0 <= i < |raw| :: !IsControl(raw[i])) && |raw| + 103 <= MAX_QUERY_CHARS
    requires TermFilter(raw, env).Some?
    ensures
      var q := Only(Deep(MAX_GROUP_DEPTH, raw));
      var text := Written(Print(q));
      && ResultOf(text, env).filter == TermFilter(raw, env)
      && Means(q, 0, m, CompilerFor(env)) == Some(!Eval(TermFilter(raw, env).value, m))
      && TOO_MANY in ResultOf(text, env).hints
  {
    hide SequenceOf, Tokens, Prepare, MatchNothing, Means, Print, Spells, CompileTerm, Scoped;
    var q := Only(Deep(MAX_GROUP_DEPTH, raw));
    var text := Written(Print(q));
    DeepTypeable(raw);
    WrittenSpells(q);
    CompilerIsLawful(env);
    MinusLostAtTheLimit(raw, EarlyHints(text), CompilerFor(env), m);
    SpellsParsed(text, q, env);
    TypedBrackets(text, q, env);
    ScopedKeeps(Parsed(text, env).0, Parsed(text, env).1.ctx, env);
  }

  lemma ScopedKeeps(node: Option<Filter>, ctx: Ctx, env: Env)
    ensures Scoped(node, ctx, env).filter == node
  {
  }

  /** Such a term exists on every account: `in:x` where nothing is called x. */
  lemma UnresolvableTerm(env: Env, negated: bool)
    requires Resolved(env.byLabel("x")).None?
    ensures CompilerFor(env)("in:x", negated).filter == Some(MatchNothing())
  {
    hide Read, PlaceOf, MatchNothing;
    InXReads();
  }

  lemma InXReads()
    ensures Read("in:x") == Operated(In, "x") && PlaceOf("x") == Labelled("x")
  {
    hide Unquote, LooksLikeOperator;
    InXParts();
    UnquoteX();
    assert Lower("x") == "x";
  }

  lemma InXParts()
    ensures Partition("in:x") == Some(("in", "x")) && Lower("in") == "in"
  {
    assert "in:x"[1..] == "n:x" && "n:x"[1..] == ":x" && ":x"[1..] == "x";
    assert ['n'] + "" == "n" && ['i'] + "n" == "in";
    assert Partition(":x") == Some(("", "x"));
    assert Partition("n:x") == Some((['n'] + "", "x"));
    assert "in"[1..] == "n" && "n"[1..] == "";
    assert Lower("n") == "n";
  }

  lemma UnquoteX()
    ensures Unquote("x") == "x"
  {
    assert !IsSpace("x"[0]);
  }
}
