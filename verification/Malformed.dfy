/** What the reader is told of a query that does not fit the grammar. */
module Malformed {
  import opened Wrappers
  import opened Filters
  import opened Guard
  import opened Terms
  import opened Tokenizer
  import opened Parser
  import opened ParserLaws

  const STRAY: Hint := Hint(Unbalanced, StrayClose, Some(")"))
  const UNCLOSED: Hint := Hint(Unbalanced, OpenBracket, Some("("))
  const BARE: Hint := Hint(Unbalanced, BareMinus, Some("-"))
  const ONE_SIDED: Hint := Hint(Unbalanced, MissingOrSide, Some("OR"))

  /** How many brackets are open before the `i`-th token; a closing one with nothing to
      close is passed over. */
  function Level(toks: seq<Token>, i: nat): nat
    requires i <= |toks|
  {
    if i == 0 then 0
    else
      var before := Level(toks, i - 1);
      if toks[i - 1] == Open then before + 1
      else if toks[i - 1] == Close && before > 0 then before - 1
      else before
  }

  /** A closing bracket with nothing to close. */
  predicate StrayAt(toks: seq<Token>, i: nat)
    requires i < |toks|
  {
    toks[i] == Close && Level(toks, i) == 0
  }

  /** A minus sign with nothing after it that it could apply to. */
  predicate BareAt(toks: seq<Token>, i: nat)
    requires i < |toks|
  {
    toks[i] == Minus && (i + 1 == |toks| || toks[i + 1] == Close)
  }

  /** Nothing goes before this place that an `OR` could join. */
  predicate NothingBefore(toks: seq<Token>, i: nat)
    requires i <= |toks|
  {
    i == 0 || toks[i - 1] == Open || toks[i - 1] == Minus || StrayAt(toks, i - 1)
  }

  /** An `OR` with a side missing. */
  predicate OneSidedAt(toks: seq<Token>, i: nat)
    requires i < |toks|
  {
    toks[i] == OrWord && (NothingBefore(toks, i) || i + 1 == |toks| || toks[i + 1] == Close || toks[i + 1] == OrWord)
  }

  ghost predicate SomeOneSided(toks: seq<Token>, lo: nat, hi: nat)
    requires hi <= |toks|
  {
    exists i | lo <= i < hi :: OneSidedAt(toks, i)
  }

  /** An `OR` found here is one-sided. */
  predicate Fresh(toks: seq<Token>, pos: nat) {
    At(toks, pos) == Some(OrWord) ==> pos <= |toks| && NothingBefore(toks, pos)
  }

  /** And one found here has a left side. */
  predicate Joined(toks: seq<Token>, pos: nat) {
    At(toks, pos) == Some(OrWord) ==> pos <= |toks| && !NothingBefore(toks, pos)
  }

  ghost predicate SomeStray(toks: seq<Token>, lo: nat, hi: nat)
    requires hi <= |toks|
  {
    exists i | lo <= i < hi :: StrayAt(toks, i)
  }

  ghost predicate SomeBare(toks: seq<Token>, lo: nat, hi: nat)
    requires hi <= |toks|
  {
    exists i | lo <= i < hi :: BareAt(toks, i)
  }

  /** Brackets nest no deeper than the parser follows them. */
  ghost predicate Shallow(toks: seq<Token>) {
    forall i | 0 <= i <= |toks| :: Level(toks, i) <= 24
  }

  /** Terms leave other hints than these. */
  ghost predicate Discreet(compile: TermCompiler) {
    forall raw, negated :: var h := compile(raw, negated).hint; h != Some(STRAY) && h != Some(UNCLOSED) && h != Some(BARE) && h != Some(ONE_SIDED)
  }

  /** Where a stretch of reading can begin: at the level it is read at, or at the end. */
  predicate Placed(toks: seq<Token>, pos: nat, depth: nat) {
    pos <= |toks| && (Level(toks, pos) == depth || (pos == |toks| && Level(toks, pos) >= depth))
  }

  /** What has been said after a stretch: of each kind, exactly what there was to say. */
  ghost predicate Heard(toks: seq<Token>, s: PState, r: PState, depth: nat) {
    && s.pos <= r.pos && Placed(toks, s.pos, depth) && Placed(toks, r.pos, depth)
    && (STRAY in r.ctx.hints <==> STRAY in s.ctx.hints || SomeStray(toks, s.pos, r.pos))
    && (BARE in r.ctx.hints <==> BARE in s.ctx.hints || SomeBare(toks, s.pos, r.pos))
    && (ONE_SIDED in r.ctx.hints <==> ONE_SIDED in s.ctx.hints || SomeOneSided(toks, s.pos, r.pos))
    && (UNCLOSED in r.ctx.hints <==>
          UNCLOSED in s.ctx.hints || (s.pos < r.pos && r.pos == |toks| && Level(toks, r.pos) > depth))
  }

  lemma HeardThen(toks: seq<Token>, s: PState, m: PState, r: PState, depth: nat)
    requires Heard(toks, s, m, depth) && Heard(toks, m, r, depth)
    ensures Heard(toks, s, r, depth)
  {
    SomeJoin(toks, s.pos, m.pos, r.pos);
    hide SomeStray, SomeBare, SomeOneSided, Level;
  }

  lemma SomeJoin(toks: seq<Token>, lo: nat, mid: nat, hi: nat)
    requires lo <= mid <= hi <= |toks|
    ensures SomeStray(toks, lo, hi) <==> SomeStray(toks, lo, mid) || SomeStray(toks, mid, hi)
    ensures SomeBare(toks, lo, hi) <==> SomeBare(toks, lo, mid) || SomeBare(toks, mid, hi)
    ensures SomeOneSided(toks, lo, hi) <==> SomeOneSided(toks, lo, mid) || SomeOneSided(toks, mid, hi)
  {
  }

  lemma HeardNothing(toks: seq<Token>, s: PState, depth: nat)
    requires Placed(toks, s.pos, depth)
    ensures Heard(toks, s, s, depth)
  {
  }

  /** A token passed over at its own level, with whatever hint that draws. */
  lemma HeardOne(toks: seq<Token>, s: PState, r: PState, depth: nat)
    requires s.pos < |toks| && Level(toks, s.pos) == depth && toks[s.pos] != Open && (toks[s.pos] == Close ==> depth == 0)
    requires r.pos == s.pos + 1
    requires STRAY in r.ctx.hints <==> STRAY in s.ctx.hints || toks[s.pos] == Close
    requires BARE in r.ctx.hints <==> BARE in s.ctx.hints || BareAt(toks, s.pos)
    requires ONE_SIDED in r.ctx.hints <==> ONE_SIDED in s.ctx.hints || OneSidedAt(toks, s.pos)
    requires UNCLOSED in r.ctx.hints <==> UNCLOSED in s.ctx.hints
    ensures Heard(toks, s, r, depth)
  {
    assert SomeStray(toks, s.pos, s.pos + 1) <==> StrayAt(toks, s.pos);
    assert SomeBare(toks, s.pos, s.pos + 1) <==> BareAt(toks, s.pos);
    assert SomeOneSided(toks, s.pos, s.pos + 1) <==> OneSidedAt(toks, s.pos);
  }

  lemma {:induction false} SequenceHeard(toks: seq<Token>, s: PState, depth: nat, inGroup: bool, negated: bool, compile: TermCompiler)
    requires Shallow(toks) && Discreet(compile) && Placed(toks, s.pos, depth) && (!inGroup ==> depth == 0)
    requires Fresh(toks, s.pos)
    ensures Heard(toks, s, SequenceOf(toks, s, depth, inGroup, negated, compile).1, depth)
    decreases |toks| - s.pos, 4
  {
    SequenceStep(toks, s, depth, inGroup, negated, compile);
    hide Heard, SequenceOf, OrSequenceOf, Level, Shallow, Discreet;
    if s.pos == |toks| || (toks[s.pos] == Close && inGroup) {
      HeardNothing(toks, s, depth);
    } else if toks[s.pos] == Close {
      var next := s.Advance().Hint(StrayClose, ")");
      HeardOne(toks, s, next, depth);
      assert Placed(toks, next.pos, depth) by {
        HeardPlaced(toks, s, next, depth);
      }
      SequenceHeard(toks, next, depth, inGroup, negated, compile);
      HeardThen(toks, s, next, SequenceOf(toks, next, depth, inGroup, negated, compile).1, depth);
    } else {
      var first := OrSequenceOf(toks, s, depth, negated, compile);
      OrSequenceHeard(toks, s, depth, negated, compile);
      HeardPlaced(toks, s, first.1, depth);
      SequenceHeard(toks, first.1, depth, inGroup, negated, compile);
      HeardThen(toks, s, first.1, SequenceOf(toks, first.1, depth, inGroup, negated, compile).1, depth);
    }
  }

  lemma HeardPlaced(toks: seq<Token>, s: PState, r: PState, depth: nat)
    requires Heard(toks, s, r, depth)
    ensures Placed(toks, r.pos, depth) && s.pos <= r.pos
  {
  }

  lemma {:induction false} OrSequenceHeard(toks: seq<Token>, s: PState, depth: nat, negated: bool, compile: TermCompiler)
    requires Shallow(toks) && Discreet(compile) && Placed(toks, s.pos, depth) && Fresh(toks, s.pos)
    ensures Heard(toks, s, OrSequenceOf(toks, s, depth, negated, compile).1, depth)
    ensures At(toks, OrSequenceOf(toks, s, depth, negated, compile).1.pos) != Some(OrWord)
    decreases |toks| - s.pos, 3
  {
    hide Heard, UnaryOf, MoreAlternatives, Level, Shallow, Discreet;
    var first := UnaryOf(toks, s, depth, negated, compile);
    UnaryHeard(toks, s, depth, negated, compile);
    HeardPlaced(toks, s, first.1, depth);
    MoreHeard(toks, first.1, depth, negated, compile);
    HeardThen(toks, s, first.1, MoreAlternatives(toks, first.1, depth, negated, compile).1, depth);
  }

  lemma {:induction false} MoreHeard(toks: seq<Token>, s: PState, depth: nat, negated: bool, compile: TermCompiler)
    requires Shallow(toks) && Discreet(compile) && Placed(toks, s.pos, depth) && Joined(toks, s.pos)
    ensures Heard(toks, s, MoreAlternatives(toks, s, depth, negated, compile).1, depth)
    ensures At(toks, MoreAlternatives(toks, s, depth, negated, compile).1.pos) != Some(OrWord)
    decreases |toks| - s.pos, 2
  {
    AlternativeStep(toks, s, depth, negated, compile);
    hide Heard, MoreAlternatives, UnaryOf, Level, Shallow, Discreet;
    if At(toks, s.pos) != Some(OrWord) {
      HeardNothing(toks, s, depth);
    } else if NothingToOr(At(toks, s.pos + 1)) {
      var next := s.Advance().Hint(MissingOrSide, "OR");
      HeardOne(toks, s, next, depth);
      HeardPlaced(toks, s, next, depth);
      MoreHeard(toks, next, depth, negated, compile);
      HeardThen(toks, s, next, MoreAlternatives(toks, next, depth, negated, compile).1, depth);
    } else {
      var next := UnaryOf(toks, s.Advance(), depth, negated, compile);
      HeardOne(toks, s, s.Advance(), depth);
      HeardPlaced(toks, s, s.Advance(), depth);
      UnaryHeard(toks, s.Advance(), depth, negated, compile);
      HeardThen(toks, s, s.Advance(), next.1, depth);
      HeardPlaced(toks, s, next.1, depth);
      MoreHeard(toks, next.1, depth, negated, compile);
      HeardThen(toks, s, next.1, MoreAlternatives(toks, next.1, depth, negated, compile).1, depth);
    }
  }

  /** Minus signs passed over; whether the last of them was bare is for later. */
  lemma {:induction false} MinusesHeard(toks: seq<Token>, s: PState, n: nat, depth: nat)
    requires Placed(toks, s.pos, depth) && n == MinusCount(toks, s.pos)
    ensures n > 0 ==> Level(toks, s.pos) == depth
    ensures Level(toks, s.pos + n) == Level(toks, s.pos)
    ensures !SomeStray(toks, s.pos, s.pos + n) && !SomeOneSided(toks, s.pos, s.pos + n)
    ensures SomeBare(toks, s.pos, s.pos + n) <==> n > 0 && (s.pos + n == |toks| || toks[s.pos + n] == Close)
    decreases n
  {
    if n > 0 {
      var next := s.Advance();
      assert Level(toks, s.pos + 1) == Level(toks, s.pos);
      MinusesHeard(toks, next, n - 1, depth);
      SomeJoin(toks, s.pos, s.pos + 1, s.pos + n);
      assert SomeBare(toks, s.pos, s.pos + 1) <==> BareAt(toks, s.pos);
      assert !SomeOneSided(toks, s.pos, s.pos + 1);
    }
  }

  lemma {:induction false} UnaryHeard(toks: seq<Token>, s: PState, depth: nat, negated: bool, compile: TermCompiler)
    requires Shallow(toks) && Discreet(compile) && Placed(toks, s.pos, depth) && Fresh(toks, s.pos)
    ensures Heard(toks, s, UnaryOf(toks, s, depth, negated, compile).1, depth)
    ensures Joined(toks, UnaryOf(toks, s, depth, negated, compile).1.pos)
    decreases |toks| - s.pos, 1
  {
    var n := MinusCount(toks, s.pos);
    var flipped, t := negated != (n % 2 == 1), s.Advance(n);
    UnaryStep(toks, s, n, depth, negated, compile);
    AfterMinuses(toks, s, n, depth);
    hide UnaryOf, GroupOf, Level, Shallow, Heard, NothingBefore, TermOf, Discreet;
    match At(toks, t.pos)
    case None =>
    case Some(Close) =>
    case Some(OrWord) =>
      var r := t.Advance().Hint(MissingOrSide, "OR");
      HeardOne(toks, t, r, depth);
      HeardThen(toks, s, t, r, depth);
      JoinedAfter(toks, t.pos);
    case Some(Open) =>
      GroupHeard(toks, t, depth, n, flipped, compile);
      HeardThen(toks, s, t, GroupOf(toks, t, depth, n, flipped, compile).1, depth);
    case Some(Term(raw)) =>
      var r := TermOf(raw, t.Advance(), n, flipped, compile).1;
      TermSilent(raw, t.Advance(), n, flipped, compile);
      HeardOne(toks, t, r, depth);
      HeardThen(toks, s, t, r, depth);
      JoinedAfter(toks, t.pos);
  }

  /** Past a word, or an `OR`, an `OR` has something before it. */
  lemma JoinedAfter(toks: seq<Token>, i: nat)
    requires i < |toks| && (toks[i].Term? || toks[i] == OrWord)
    ensures Joined(toks, i + 1)
  {
  }

  /** What the minus signs in front of a unary leave to be said. */
  lemma AfterMinuses(toks: seq<Token>, s: PState, n: nat, depth: nat)
    requires Placed(toks, s.pos, depth) && Fresh(toks, s.pos) && n == MinusCount(toks, s.pos)
    ensures
      var t := s.Advance(n);
      if t.pos == |toks| || toks[t.pos] == Close then Heard(toks, s, if n > 0 then t.Hint(BareMinus, "-") else t, depth)
      else Heard(toks, s, t, depth) && Level(toks, t.pos) == depth && Fresh(toks, t.pos)
  {
    MinusesHeard(toks, s, n, depth);
    assert n > 0 ==> toks[s.pos + n - 1] == Minus;
    hide SomeStray, SomeBare, SomeOneSided;
    SomeNone(toks, s.pos);
    hide Level;
  }

  lemma SomeNone(toks: seq<Token>, pos: nat)
    requires pos <= |toks|
    ensures !SomeStray(toks, pos, pos) && !SomeBare(toks, pos, pos) && !SomeOneSided(toks, pos, pos)
  {
  }

  lemma TermSilent(raw: string, s: PState, n: nat, flipped: bool, compile: TermCompiler)
    requires Discreet(compile)
    ensures
      var r := TermOf(raw, s, n, flipped, compile).1;
      && r.pos == s.pos
      && (STRAY in r.ctx.hints <==> STRAY in s.ctx.hints) && (BARE in r.ctx.hints <==> BARE in s.ctx.hints)
      && (UNCLOSED in r.ctx.hints <==> UNCLOSED in s.ctx.hints) && (ONE_SIDED in r.ctx.hints <==> ONE_SIDED in s.ctx.hints)
  {
    var c := compile(raw, flipped);
    assert c.hint != Some(STRAY) && c.hint != Some(UNCLOSED) && c.hint != Some(BARE) && c.hint != Some(ONE_SIDED);
  }

  lemma {:induction false} GroupHeard(toks: seq<Token>, s: PState, depth: nat, n: nat, flipped: bool, compile: TermCompiler)
    requires Shallow(toks) && Discreet(compile) && s.pos < |toks| && toks[s.pos] == Open && Level(toks, s.pos) == depth
    ensures Heard(toks, s, GroupOf(toks, s, depth, n, flipped, compile).1, depth)
    ensures Joined(toks, GroupOf(toks, s, depth, n, flipped, compile).1.pos)
    decreases |toks| - s.pos, 0
  {
    GroupStart(toks, s.pos, depth);
    var inside := SequenceOf(toks, s.Advance(), depth + 1, true, flipped, compile).1;
    var r := GroupOf(toks, s, depth, n, flipped, compile).1;
    hide Heard, SequenceOf, GroupOf, Level, Shallow, Discreet, Placed, Fresh, Joined;
    SequenceHeard(toks, s.Advance(), depth + 1, true, flipped, compile);
    GroupIs(toks, s, depth, n, flipped, compile);
    GroupEnds(toks, s, inside, r, depth);
  }

  lemma GroupStart(toks: seq<Token>, pos: nat, depth: nat)
    requires Shallow(toks) && pos < |toks| && toks[pos] == Open && Level(toks, pos) == depth
    ensures depth < 24 && Placed(toks, pos + 1, depth + 1) && Fresh(toks, pos + 1)
  {
    assert Level(toks, pos + 1) == depth + 1;
  }

  /** What a group says besides what is said inside it. */
  lemma GroupIs(toks: seq<Token>, s: PState, depth: nat, n: nat, flipped: bool, compile: TermCompiler)
    requires s.pos < |toks| && depth < 24
    ensures
      var inside := SequenceOf(toks, s.Advance(), depth + 1, true, flipped, compile).1;
      var r := GroupOf(toks, s, depth, n, flipped, compile).1;
      && (inside.pos == |toks| || toks[inside.pos] == Close)
      && r.pos == (if inside.pos < |toks| then inside.pos + 1 else inside.pos)
      && (STRAY in r.ctx.hints <==> STRAY in inside.ctx.hints)
      && (BARE in r.ctx.hints <==> BARE in inside.ctx.hints)
      && (ONE_SIDED in r.ctx.hints <==> ONE_SIDED in inside.ctx.hints)
      && (UNCLOSED in r.ctx.hints <==> UNCLOSED in inside.ctx.hints || inside.pos == |toks|)
  {
    hide SequenceOf, Combine, Negate;
    var inside := SequenceOf(toks, s.Advance(), depth + 1, true, flipped, compile);
    assert At(toks, inside.1.pos).None? || toks[inside.1.pos] == Close;
  }

  /** An opened bracket, what is inside, and its end. */
  lemma GroupEnds(toks: seq<Token>, s: PState, inside: PState, r: PState, depth: nat)
    requires s.pos < |toks| && toks[s.pos] == Open && Level(toks, s.pos) == depth
    requires Heard(toks, s.Advance(), inside, depth + 1) && (inside.pos == |toks| || toks[inside.pos] == Close)
    requires r.pos == if inside.pos < |toks| then inside.pos + 1 else inside.pos
    requires STRAY in r.ctx.hints <==> STRAY in inside.ctx.hints
    requires BARE in r.ctx.hints <==> BARE in inside.ctx.hints
    requires ONE_SIDED in r.ctx.hints <==> ONE_SIDED in inside.ctx.hints
    requires UNCLOSED in r.ctx.hints <==> UNCLOSED in inside.ctx.hints || inside.pos == |toks|
    ensures Heard(toks, s, r, depth) && Joined(toks, r.pos)
  {
    SomeJoin(toks, s.pos, s.pos + 1, r.pos);
    assert !SomeStray(toks, s.pos, s.pos + 1) && !SomeBare(toks, s.pos, s.pos + 1) && !SomeOneSided(toks, s.pos, s.pos + 1);
    if inside.pos < |toks| {
      SomeJoin(toks, s.pos + 1, inside.pos, r.pos);
      assert !StrayAt(toks, inside.pos) && !BareAt(toks, inside.pos);
      assert !SomeStray(toks, inside.pos, r.pos) && !SomeBare(toks, inside.pos, r.pos) && !SomeOneSided(toks, inside.pos, r.pos);
    }
  }

  /** For every list of tokens whose brackets nest at most 24 deep: the reader is told of a
      closing bracket exactly when one has nothing to close, of an open one exactly when one
      is left, of a minus sign exactly when one has nothing after it, and of an `OR` exactly
      when one has nothing on one side. */
  lemma ToldExactly(toks: seq<Token>, hints: seq<Hint>, compile: TermCompiler)
    requires Shallow(toks) && Discreet(compile) && STRAY !in hints && UNCLOSED !in hints && BARE !in hints && ONE_SIDED !in hints
    ensures
      var end := ParseOf(toks, hints, compile).1;
      && (STRAY in end.ctx.hints <==> exists i | 0 <= i < |toks| :: StrayAt(toks, i))
      && (UNCLOSED in end.ctx.hints <==> Level(toks, |toks|) > 0)
      && (BARE in end.ctx.hints <==> exists i | 0 <= i < |toks| :: BareAt(toks, i))
      && (ONE_SIDED in end.ctx.hints <==> exists i | 0 <= i < |toks| :: OneSidedAt(toks, i))
  {
    var start := PState(0, 0, Ctx(hints, false, false));
    NothingOpen(toks);
    SequenceHeard(toks, start, 0, false, false, compile);
    var end := SequenceOf(toks, start, 0, false, false, compile).1;
    assert end.pos == |toks|;
    HeardWhole(toks, start, end);
    hide *;
    assert ParseOf(toks, hints, compile).1 == end by {
      ParseEnds(toks, hints, compile);
    }
  }

  lemma ParseEnds(toks: seq<Token>, hints: seq<Hint>, compile: TermCompiler)
    ensures ParseOf(toks, hints, compile).1 == SequenceOf(toks, PState(0, 0, Ctx(hints, false, false)), 0, false, false, compile).1
  {
  }

  lemma HeardWhole(toks: seq<Token>, s: PState, r: PState)
    requires Heard(toks, s, r, 0) && s.pos == 0 && r.pos == |toks|
    requires STRAY !in s.ctx.hints && UNCLOSED !in s.ctx.hints && BARE !in s.ctx.hints && ONE_SIDED !in s.ctx.hints
    ensures STRAY in r.ctx.hints <==> exists i | 0 <= i < |toks| :: StrayAt(toks, i)
    ensures UNCLOSED in r.ctx.hints <==> Level(toks, |toks|) > 0
    ensures BARE in r.ctx.hints <==> exists i | 0 <= i < |toks| :: BareAt(toks, i)
    ensures ONE_SIDED in r.ctx.hints <==> exists i | 0 <= i < |toks| :: OneSidedAt(toks, i)
  {
    NothingOpen(toks);
    hide Level;
  }

  lemma NothingOpen(toks: seq<Token>)
    ensures Level(toks, 0) == 0
  {
  }
}
