/** What a query means, stated on its syntax tree, and the proof that the parser reads the
    tree back from its tokens and that the filter it builds means the same thing. */
module Meaning {
  import opened Wrappers
  import opened Filters
  import opened Guard
  import opened Terms
  import opened Tokenizer
  import opened Parser
  import opened ParserLaws

  /** The grammar: a query is a juxtaposition of alternatives, an alternative is one or
      more unaries joined by OR, and a unary is a word, a negation or a bracketed query. */
  datatype Query = Nothing | And(head: Alternatives, tail: Query)
  datatype Alternatives = One(only: Unary) | Either(first: Unary, rest: Alternatives)
  datatype Unary = Word(raw: string) | Negated(inner: Unary) | Brackets(query: Query)

  // ----------------------------------------------------------------- printing

  function Print(q: Query): seq<Token> {
    match q
    case Nothing => []
    case And(head, tail) => PrintAlternatives(head) + Print(tail)
  }

  function PrintAlternatives(a: Alternatives): (toks: seq<Token>)
    ensures toks != [] && toks[0] != OrWord && toks[0] != Close
  {
    match a
    case One(u) => PrintUnary(u)
    case Either(u, rest) => PrintUnary(u) + [OrWord] + PrintAlternatives(rest)
  }

  function PrintUnary(u: Unary): (toks: seq<Token>)
    ensures toks != [] && toks[0] != OrWord && toks[0] != Close
  {
    match u
    case Word(raw) => [Term(raw)]
    case Negated(inner) => [Minus] + PrintUnary(inner)
    case Brackets(q) => [Open] + Print(q) + [Close]
  }

  // ------------------------------------------------------------------ measures

  /** How deep brackets nest. */
  function Depth(q: Query): nat {
    match q
    case Nothing => 0
    case And(head, tail) => Max(DepthAlternatives(head), Depth(tail))
  }

  function DepthAlternatives(a: Alternatives): nat {
    match a
    case One(u) => DepthUnary(u)
    case Either(u, rest) => Max(DepthUnary(u), DepthAlternatives(rest))
  }

  function DepthUnary(u: Unary): nat {
    match u
    case Word(_) => 0
    case Negated(inner) => DepthUnary(inner)
    case Brackets(q) => 1 + Depth(q)
  }

  function Max(a: nat, b: nat): nat {
    if a < b then b else a
  }

  /** How many words there are. */
  function Words(q: Query): nat {
    match q
    case Nothing => 0
    case And(head, tail) => WordsAlternatives(head) + Words(tail)
  }

  function WordsAlternatives(a: Alternatives): nat {
    match a
    case One(u) => WordsUnary(u)
    case Either(u, rest) => WordsUnary(u) + WordsAlternatives(rest)
  }

  function WordsUnary(u: Unary): nat {
    match u
    case Word(_) => 1
    case Negated(inner) => WordsUnary(inner)
    case Brackets(q) => Words(q)
  }

  // ------------------------------------------------------------------- meaning

  /** Three-valued truth: a part of a query that constrains nothing is erased. */
  function Both(a: Option<bool>, b: Option<bool>): Option<bool> {
    if a.None? then b else if b.None? then a else Some(a.value && b.value)
  }

  function Any(a: Option<bool>, b: Option<bool>): Option<bool> {
    if a.None? then b else if b.None? then a else Some(a.value || b.value)
  }

  function Opposite(a: Option<bool>): Option<bool> {
    if a.None? then None else Some(!a.value)
  }

  /** Whether a message matches a query: minus binds tightest, then OR, then the AND of
      juxtaposition. The words are numbered from `k`; the ones past the term budget, like
      the ones that compile to nothing, are erased. */
  ghost function Means(q: Query, k: nat, m: Message, compile: TermCompiler): Option<bool> {
    match q
    case Nothing => None
    case And(head, tail) =>
      Both(MeansAlternatives(head, k, m, compile), Means(tail, k + WordsAlternatives(head), m, compile))
  }

  ghost function MeansAlternatives(a: Alternatives, k: nat, m: Message, compile: TermCompiler): Option<bool> {
    match a
    case One(u) => MeansUnary(u, k, m, compile)
    case Either(u, rest) =>
      Any(MeansUnary(u, k, m, compile), MeansAlternatives(rest, k + WordsUnary(u), m, compile))
  }

  ghost function MeansUnary(u: Unary, k: nat, m: Message, compile: TermCompiler): Option<bool> {
    match u
    case Word(raw) => if k < MAX_TERMS then Verdict(compile(raw, false).filter, m) else None
    case Negated(inner) => Opposite(MeansUnary(inner, k, m, compile))
    case Brackets(q) => Means(q, k, m, compile)
  }

  /** What a compiled filter says about a message. */
  ghost function Verdict(f: Option<Filter>, m: Message): Option<bool> {
    match f
    case None => None
    case Some(f) => Some(Eval(f, m))
  }

  /** The words in order, each with whether it lies under an odd number of negations. */
  function Leaves(q: Query, negated: bool): seq<(string, bool)> {
    match q
    case Nothing => []
    case And(head, tail) => LeavesAlternatives(head, negated) + Leaves(tail, negated)
  }

  function LeavesAlternatives(a: Alternatives, negated: bool): seq<(string, bool)> {
    match a
    case One(u) => LeavesUnary(u, negated)
    case Either(u, rest) => LeavesUnary(u, negated) + LeavesAlternatives(rest, negated)
  }

  function LeavesUnary(u: Unary, negated: bool): seq<(string, bool)> {
    match u
    case Word(raw) => [(raw, negated)]
    case Negated(inner) => LeavesUnary(inner, !negated)
    case Brackets(q) => Leaves(q, negated)
  }

  // -------------------------------------------------- what the parser builds

  function Elaborate(q: Query, s: PState, negated: bool, compile: TermCompiler): (seq<Option<Filter>>, PState) {
    match q
    case Nothing => ([], s)
    case And(head, tail) =>
      var first := ElaborateAlternatives(head, s, negated, compile);
      var rest := Elaborate(tail, first.1, negated, compile);
      ([Combine(OR, first.0)] + rest.0, rest.1)
  }

  function ElaborateAlternatives(a: Alternatives, s: PState, negated: bool, compile: TermCompiler)
    : (seq<Option<Filter>>, PState)
  {
    match a
    case One(u) =>
      var only := ElaborateUnary(u, 0, s, negated, compile);
      ([only.0], only.1)
    case Either(u, others) =>
      var first := ElaborateUnary(u, 0, s, negated, compile);
      var rest := ElaborateAlternatives(others, first.1.Advance(), negated, compile);
      ([first.0] + rest.0, rest.1)
  }

  /** A unary under `n` minus signs already read. */
  function ElaborateUnary(u: Unary, n: nat, s: PState, negated: bool, compile: TermCompiler)
    : (Option<Filter>, PState)
  {
    match u
    case Word(raw) => TermOf(raw, s.Advance(), n, negated != (n % 2 == 1), compile)
    case Negated(inner) => ElaborateUnary(inner, n + 1, s.Advance(), negated, compile)
    case Brackets(q) =>
      var inside := Elaborate(q, s.Advance(), negated != (n % 2 == 1), compile);
      var node := Combine(AND, inside.0);
      var closed := inside.1.Advance();
      (Negate(node, n), if node.None? then closed.Hint(EmptyBrackets, "()") else closed)
  }

  // ------------------------------------------------------ reading tokens back

  /** `part` sits in `toks` at `pos`. */
  ghost predicate Placed(part: seq<Token>, toks: seq<Token>, pos: nat) {
    pos + |part| <= |toks| && toks[pos..pos + |part|] == part
  }

  lemma PlacedSplit(a: seq<Token>, b: seq<Token>, toks: seq<Token>, pos: nat)
    requires Placed(a + b, toks, pos)
    ensures Placed(a, toks, pos) && Placed(b, toks, pos + |a|)
  {
    var whole := toks[pos..pos + |a + b|];
    assert toks[pos..pos + |a|] == whole[..|a|];
    assert toks[pos + |a|..pos + |a| + |b|] == whole[|a|..];
  }

  lemma PlacedAt(part: seq<Token>, toks: seq<Token>, pos: nat, i: nat)
    requires Placed(part, toks, pos) && i < |part|
    ensures pos + |part| <= |toks| && toks[pos + i] == part[i]
  {
    assert toks[pos..pos + |part|][i] == part[i];
  }

  lemma {:induction false} SequenceReads(q: Query, toks: seq<Token>, s: PState, depth: nat, inGroup: bool, negated: bool, compile: TermCompiler)
    requires Placed(Print(q), toks, s.pos) && depth + Depth(q) <= MAX_GROUP_DEPTH
    requires
      var end := s.pos + |Print(q)|;
      end == |toks| || (inGroup && toks[end] == Close)
    ensures
      var r := Elaborate(q, s, negated, compile);
      SequenceOf(toks, s, depth, inGroup, negated, compile) == r && r.1.pos == s.pos + |Print(q)|
    decreases q, 0
  {
    hide OrSequenceOf, MoreAlternatives, UnaryOf, GroupOf, ElaborateAlternatives;
    match q
    case Nothing =>
    case And(head, tail) =>
      AndPlaced(head, tail, toks, s.pos);
      OrSequenceReads(head, toks, s, depth, negated, compile);
      SequenceReads(tail, toks, ElaborateAlternatives(head, s, negated, compile).1, depth, inGroup, negated, compile);
  }

  lemma AndPlaced(head: Alternatives, tail: Query, toks: seq<Token>, pos: nat)
    requires Placed(Print(And(head, tail)), toks, pos)
    ensures
      var mid := pos + |PrintAlternatives(head)|;
      && pos < |toks| && toks[pos] != Close && Placed(PrintAlternatives(head), toks, pos)
      && Placed(Print(tail), toks, mid)
      && (tail != Nothing ==> mid < |toks| && toks[mid] != OrWord)
      && |Print(And(head, tail))| == |PrintAlternatives(head)| + |Print(tail)|
  {
    var h := PrintAlternatives(head);
    PlacedSplit(h, Print(tail), toks, pos);
    PlacedAt(h, toks, pos, 0);
    if tail != Nothing {
      assert Print(tail) != [];
      PlacedAt(Print(tail), toks, pos + |h|, 0);
    }
  }

  lemma {:induction false} OrSequenceReads(a: Alternatives, toks: seq<Token>, s: PState, depth: nat, negated: bool, compile: TermCompiler)
    requires Placed(PrintAlternatives(a), toks, s.pos) && depth + DepthAlternatives(a) <= MAX_GROUP_DEPTH
    requires At(toks, s.pos + |PrintAlternatives(a)|) != Some(OrWord)
    ensures
      var r := ElaborateAlternatives(a, s, negated, compile);
      OrSequenceOf(toks, s, depth, negated, compile) == r && r.1.pos == s.pos + |PrintAlternatives(a)|
    decreases a, 0
  {
    hide UnaryOf, ElaborateUnary, MoreAlternatives, SequenceOf, Placed;
    match a
    case One(u) =>
      UnaryReads(u, 0, toks, s, depth, negated, compile);
      var only := ElaborateUnary(u, 0, s, negated, compile);
      AlternativeStep(toks, only.1, depth, negated, compile);
      assert [only.0] + [] == [only.0];
    case Either(u, rest) =>
      var p := PrintUnary(u);
      EitherPlaced(u, rest, toks, s.pos);
      UnaryReads(u, 0, toks, s, depth, negated, compile);
      var first := ElaborateUnary(u, 0, s, negated, compile);
      AlternativeStep(toks, first.1, depth, negated, compile);
      OrSequenceReads(rest, toks, first.1.Advance(), depth, negated, compile);
  }

  lemma EitherPrinted(u: Unary, rest: Alternatives)
    ensures PrintAlternatives(Either(u, rest)) == PrintUnary(u) + ([OrWord] + PrintAlternatives(rest))
  {
    hide PrintUnary;
    var p, r := PrintUnary(u), PrintAlternatives(rest);
    assert (p + [OrWord]) + r == p + ([OrWord] + r);
  }

  lemma EitherPlaced(u: Unary, rest: Alternatives, toks: seq<Token>, pos: nat)
    requires Placed(PrintAlternatives(Either(u, rest)), toks, pos)
    ensures
      var mid := pos + |PrintUnary(u)|;
      && Placed(PrintUnary(u), toks, pos)
      && Placed(PrintAlternatives(rest), toks, mid + 1)
      && At(toks, mid) == Some(OrWord) && !NothingToOr(At(toks, mid + 1))
  {
    hide Placed, PrintUnary, PrintAlternatives;
    var p, r := PrintUnary(u), PrintAlternatives(rest);
    EitherPrinted(u, rest);
    PlacedSplit(p, [OrWord] + r, toks, pos);
    PlacedSplit([OrWord], r, toks, pos + |p|);
    PlacedAt([OrWord], toks, pos + |p|, 0);
    PlacedAt(r, toks, pos + |p| + 1, 0);
  }

  lemma {:induction false} UnaryReads(u: Unary, n: nat, toks: seq<Token>, s: PState, depth: nat, negated: bool, compile: TermCompiler)
    requires n <= s.pos && Placed(PrintUnary(u), toks, s.pos) && depth + DepthUnary(u) <= MAX_GROUP_DEPTH
    requires forall i | s.pos - n <= i < s.pos <= |toks| :: toks[i] == Minus
    ensures
      var r := ElaborateUnary(u, n, s, negated, compile);
      && UnaryOf(toks, s.(pos := s.pos - n), depth, negated, compile) == r
      && r.1.pos == s.pos + |PrintUnary(u)|
    decreases u, 0
  {
    hide UnaryOf, GroupOf, TermOf, Elaborate, Placed;
    PlacedAt(PrintUnary(u), toks, s.pos, 0);
    match u
    case Word(raw) =>
      AfterMinuses(toks, s, n, depth, negated, compile);
      TermKeepsPos(raw, s.Advance(), n, negated != (n % 2 == 1), compile);
    case Negated(inner) =>
      PlacedSplit([Minus], PrintUnary(inner), toks, s.pos);
      UnaryReads(inner, n + 1, toks, s.Advance(), depth, negated, compile);
    case Brackets(q) =>
      AfterMinuses(toks, s, n, depth, negated, compile);
      GroupReads(q, n, toks, s, depth, negated != (n % 2 == 1), compile);
  }

  /** Once the minus signs are behind it, a unary is its term or its group. */
  lemma AfterMinuses(toks: seq<Token>, s: PState, n: nat, depth: nat, negated: bool, compile: TermCompiler)
    requires n <= s.pos < |toks| && (toks[s.pos] == Open || toks[s.pos].Term?)
    requires forall i | s.pos - n <= i < s.pos :: toks[i] == Minus
    ensures
      var flipped := negated != (n % 2 == 1);
      UnaryOf(toks, s.(pos := s.pos - n), depth, negated, compile)
      == if toks[s.pos] == Open then GroupOf(toks, s, depth, n, flipped, compile)
         else TermOf(toks[s.pos].raw, s.Advance(), n, flipped, compile)
  {
    hide GroupOf, TermOf;
    MinusCountIs(toks, s.pos - n, n);
    assert s.(pos := s.pos - n).Advance(n) == s;
  }

  lemma TermKeepsPos(raw: string, s: PState, n: nat, flipped: bool, compile: TermCompiler)
    ensures TermOf(raw, s, n, flipped, compile).1.pos == s.pos
  {
  }

  lemma {:induction false} GroupReads(q: Query, n: nat, toks: seq<Token>, s: PState, depth: nat, flipped: bool, compile: TermCompiler)
    requires Placed(PrintUnary(Brackets(q)), toks, s.pos) && depth + 1 + Depth(q) <= MAX_GROUP_DEPTH
    ensures
      var inside := Elaborate(q, s.Advance(), flipped, compile);
      var node := Combine(AND, inside.0);
      var closed := inside.1.Advance();
      && closed.pos == s.pos + |PrintUnary(Brackets(q))|
      && GroupOf(toks, s, depth, n, flipped, compile)
         == (Negate(node, n), if node.None? then closed.Hint(EmptyBrackets, "()") else closed)
    decreases q, 2
  {
    hide SequenceOf, Elaborate, Placed;
    InsideReads(q, toks, s, depth, flipped, compile);
  }

  lemma {:induction false} InsideReads(q: Query, toks: seq<Token>, s: PState, depth: nat, flipped: bool, compile: TermCompiler)
    requires Placed(PrintUnary(Brackets(q)), toks, s.pos) && depth + 1 + Depth(q) <= MAX_GROUP_DEPTH
    ensures
      var inside := Elaborate(q, s.Advance(), flipped, compile);
      && s.pos + 1 <= |toks|
      && SequenceOf(toks, s.Advance(), depth + 1, true, flipped, compile) == inside
      && inside.1.pos + 1 == s.pos + |PrintUnary(Brackets(q))| <= |toks|
    decreases q, 1
  {
    hide SequenceOf, Elaborate, Placed, Print, PrintUnary, Depth;
    InsidePlaced(q, toks, s.pos);
    SequenceReads(q, toks, s.Advance(), depth + 1, true, flipped, compile);
  }

  lemma BracketsPrinted(q: Query)
    ensures PrintUnary(Brackets(q)) == [Open] + (Print(q) + [Close])
  {
    hide Print;
    var p := Print(q);
    assert ([Open] + p) + [Close] == [Open] + (p + [Close]);
  }

  /** What is between the brackets, and the closing one. */
  lemma InsidePlaced(q: Query, toks: seq<Token>, pos: nat)
    requires Placed(PrintUnary(Brackets(q)), toks, pos)
    ensures
      var end := pos + 1 + |Print(q)|;
      && Placed(Print(q), toks, pos + 1) && end < |toks| && toks[end] == Close
      && |PrintUnary(Brackets(q))| == |Print(q)| + 2
  {
    hide Placed, Print, PrintUnary;
    var p := Print(q);
    BracketsPrinted(q);
    PlacedSplit([Open], p + [Close], toks, pos);
    PlacedSplit(p, [Close], toks, pos + 1);
    PlacedAt([Close], toks, pos + 1 + |p|, 0);
  }

  lemma {:induction false} MinusCountIs(toks: seq<Token>, pos: nat, n: nat)
    requires pos + n <= |toks| && At(toks, pos + n) != Some(Minus)
    requires forall i | pos <= i < pos + n :: toks[i] == Minus
    ensures MinusCount(toks, pos) == n
    decreases n
  {
    if n > 0 {
      MinusCountIs(toks, pos + 1, n - 1);
    }
  }

  // ----------------------------------------------------- the filter's meaning

  lemma {:induction false} ElaborateMeans(q: Query, k: nat, s: PState, negated: bool, m: Message, compile: TermCompiler)
    requires Lawful(compile) && s.terms == Used(k)
    ensures
      var r := Elaborate(q, s, negated, compile);
      Verdict(Combine(AND, r.0), m) == Means(q, k, m, compile) && r.1.terms == Used(k + Words(q))
    decreases q, 0
  {
    match q
    case Nothing =>
    case And(head, tail) =>
      var first := ElaborateAlternatives(head, s, negated, compile);
      AlternativesMean(head, k, s, negated, m, compile);
      ElaborateMeans(tail, k + WordsAlternatives(head), first.1, negated, m, compile);
      CombineCons(AND, Combine(OR, first.0), Elaborate(tail, first.1, negated, compile).0, m);
  }

  lemma {:induction false} AlternativesMean(a: Alternatives, k: nat, s: PState, negated: bool, m: Message, compile: TermCompiler)
    requires Lawful(compile) && s.terms == Used(k)
    ensures
      var r := ElaborateAlternatives(a, s, negated, compile);
      && Verdict(Combine(OR, r.0), m) == MeansAlternatives(a, k, m, compile)
      && r.1.terms == Used(k + WordsAlternatives(a))
    decreases a, 0
  {
    match a
    case One(u) =>
      UnaryMeans(u, 0, k, s, negated, m, compile);
      var only := ElaborateUnary(u, 0, s, negated, compile).0;
      CombineCons(OR, only, [], m);
      assert [only] + [] == [only];
    case Either(u, rest) =>
      UnaryMeans(u, 0, k, s, negated, m, compile);
      var first := ElaborateUnary(u, 0, s, negated, compile);
      AlternativesMean(rest, k + WordsUnary(u), first.1.Advance(), negated, m, compile);
      CombineCons(OR, first.0, ElaborateAlternatives(rest, first.1.Advance(), negated, compile).0, m);
  }

  function OppositeTimes(n: nat, v: Option<bool>): Option<bool> {
    if n % 2 == 1 then Opposite(v) else v
  }

  lemma {:induction false} UnaryMeans(u: Unary, n: nat, k: nat, s: PState, negated: bool, m: Message, compile: TermCompiler)
    requires Lawful(compile) && s.terms == Used(k)
    ensures
      var r := ElaborateUnary(u, n, s, negated, compile);
      && Verdict(r.0, m) == OppositeTimes(n, MeansUnary(u, k, m, compile))
      && r.1.terms == Used(k + WordsUnary(u))
    decreases u, 0
  {
    match u
    case Word(raw) =>
      var flipped := negated != (n % 2 == 1);
      assert compile(raw, flipped).filter == compile(raw, false).filter;
      NotMeaning(compile(raw, flipped).filter, m);
    case Negated(inner) =>
      UnaryMeans(inner, n + 1, k, s.Advance(), negated, m, compile);
    case Brackets(q) =>
      var flipped := negated != (n % 2 == 1);
      ElaborateMeans(q, k, s.Advance(), flipped, m, compile);
      NotMeaning(Combine(AND, Elaborate(q, s.Advance(), flipped, compile).0), m);
  }

  /** Joining one more branch to the front is the matching connective on verdicts. */
  lemma CombineCons(op: Operator, node: Option<Filter>, rest: seq<Option<Filter>>, m: Message)
    requires op != NOT
    ensures
      var joined := Verdict(Combine(op, [node] + rest), m);
      joined == if op == AND then Both(Verdict(node, m), Verdict(Combine(AND, rest), m))
                else Any(Verdict(node, m), Verdict(Combine(OR, rest), m))
  {
    var all := [node] + rest;
    CombineMeaning(op, all, m);
    CombineMeaning(op, rest, m);
    assert all[0] == node;
    assert forall i | 0 <= i < |rest| :: rest[i] == all[i + 1];
    assert forall i | 1 <= i < |all| :: all[i] == rest[i - 1];
    if Combine(op, rest).Some? {
      assert exists i | 0 <= i < |rest| :: rest[i].Some?;
      if op == OR && MeansAll(OR, rest, m) {
        var i :| 0 <= i < |rest| && rest[i].Some? && Eval(rest[i].value, m);
        assert all[i + 1].Some? && Eval(all[i + 1].value, m);
      }
      if op == OR && MeansAll(OR, all, m) && !(node.Some? && Eval(node.value, m)) {
        var i :| 0 <= i < |all| && all[i].Some? && Eval(all[i].value, m);
        assert rest[i - 1].Some? && Eval(rest[i - 1].value, m);
      }
      if op == AND && MeansAll(AND, all, m) {
        forall i | 0 <= i < |rest| && rest[i].Some? ensures Eval(rest[i].value, m) {
          assert all[i + 1].Some?;
        }
      }
    }
  }

  // ------------------------------------------------------------ scope choices

  /** The two marks a term can leave: that it chose a scope, or that its lookup misbehaved. */
  datatype Mark = Choice | Misbehaviour

  predicate Marks(mark: Mark, c: Compiled) {
    if mark == Choice then c.choosesScope else c.misbehaves
  }

  predicate Marked(mark: Mark, ctx: Ctx) {
    if mark == Choice then ctx.scopeExplicit else ctx.misbehaved
  }

  /** Whether some word within the budget, under the sign it stands under, leaves the mark. */
  ghost predicate SomeMarks(mark: Mark, leaves: seq<(string, bool)>, k: nat, compile: TermCompiler) {
    exists i | 0 <= i < |leaves| && k + i < MAX_TERMS :: Marks(mark, compile(leaves[i].0, leaves[i].1))
  }

  lemma SomeMarksAppend(mark: Mark, a: seq<(string, bool)>, b: seq<(string, bool)>, k: nat, compile: TermCompiler)
    ensures SomeMarks(mark, a + b, k, compile) <==> SomeMarks(mark, a, k, compile) || SomeMarks(mark, b, k + |a|, compile)
  {
    var all := a + b;
    if SomeMarks(mark, all, k, compile) {
      var i :| 0 <= i < |all| && k + i < MAX_TERMS && Marks(mark, compile(all[i].0, all[i].1));
      if i < |a| {
        assert Marks(mark, compile(a[i].0, a[i].1));
      } else {
        assert Marks(mark, compile(b[i - |a|].0, b[i - |a|].1));
      }
    }
    if SomeMarks(mark, a, k, compile) {
      var i :| 0 <= i < |a| && k + i < MAX_TERMS && Marks(mark, compile(a[i].0, a[i].1));
      assert Marks(mark, compile(all[i].0, all[i].1));
    }
    if SomeMarks(mark, b, k + |a|, compile) {
      var i :| 0 <= i < |b| && k + |a| + i < MAX_TERMS && Marks(mark, compile(b[i].0, b[i].1));
      assert all[|a| + i] == b[i];
      assert Marks(mark, compile(all[|a| + i].0, all[|a| + i].1));
    }
  }

  /** The mark after a stretch of words. */
  ghost predicate MarkAfter(mark: Mark, from: PState, leaves: seq<(string, bool)>, k: nat, after: PState, compile: TermCompiler) {
    && after.terms == Used(k + |leaves|)
    && (Marked(mark, after.ctx) <==> Marked(mark, from.ctx) || SomeMarks(mark, leaves, k, compile))
  }

  lemma {:induction false} ElaborateMark(mark: Mark, q: Query, k: nat, s: PState, negated: bool, compile: TermCompiler)
    requires s.terms == Used(k)
    ensures MarkAfter(mark, s, Leaves(q, negated), k, Elaborate(q, s, negated, compile).1, compile)
    decreases q, 0
  {
    match q
    case Nothing =>
    case And(head, tail) =>
      var first := ElaborateAlternatives(head, s, negated, compile);
      var l := LeavesAlternatives(head, negated);
      AlternativesMark(mark, head, k, s, negated, compile);
      ElaborateMark(mark, tail, k + |l|, first.1, negated, compile);
      SomeMarksAppend(mark, l, Leaves(tail, negated), k, compile);
  }

  lemma {:induction false} AlternativesMark(mark: Mark, a: Alternatives, k: nat, s: PState, negated: bool, compile: TermCompiler)
    requires s.terms == Used(k)
    ensures MarkAfter(mark, s, LeavesAlternatives(a, negated), k, ElaborateAlternatives(a, s, negated, compile).1, compile)
    decreases a, 0
  {
    match a
    case One(u) => UnaryMark(mark, u, 0, k, s, negated, compile);
    case Either(u, rest) =>
      var first := ElaborateUnary(u, 0, s, negated, compile);
      var l := LeavesUnary(u, negated);
      UnaryMark(mark, u, 0, k, s, negated, compile);
      AlternativesMark(mark, rest, k + |l|, first.1.Advance(), negated, compile);
      SomeMarksAppend(mark, l, LeavesAlternatives(rest, negated), k, compile);
  }

  lemma {:induction false} UnaryMark(mark: Mark, u: Unary, n: nat, k: nat, s: PState, negated: bool, compile: TermCompiler)
    requires s.terms == Used(k)
    ensures MarkAfter(mark, s, LeavesUnary(u, negated != (n % 2 == 1)), k, ElaborateUnary(u, n, s, negated, compile).1, compile)
    decreases u, 0
  {
    var flipped := negated != (n % 2 == 1);
    match u
    case Word(raw) =>
      WordMark(mark, raw, n, k, s, negated, compile);
    case Negated(inner) =>
      assert (negated != ((n + 1) % 2 == 1)) == !flipped;
      UnaryMark(mark, inner, n + 1, k, s.Advance(), negated, compile);
    case Brackets(q) => ElaborateMark(mark, q, k, s.Advance(), flipped, compile);
  }

  lemma WordMark(mark: Mark, raw: string, n: nat, k: nat, s: PState, negated: bool, compile: TermCompiler)
    requires s.terms == Used(k)
    ensures MarkAfter(mark, s, LeavesUnary(Word(raw), negated != (n % 2 == 1)), k, ElaborateUnary(Word(raw), n, s, negated, compile).1, compile)
  {
    var flipped := negated != (n % 2 == 1);
    var leaves := LeavesUnary(Word(raw), flipped);
    assert leaves[0] == (raw, flipped);
    if k < MAX_TERMS && Marks(mark, compile(raw, flipped)) {
      assert Marks(mark, compile(leaves[0].0, leaves[0].1));
    }
  }

  // ------------------------------------------------------------- main results

  /** The parser reads the whole of a printed query, and what it builds means what the
      query means: it constrains nothing exactly when the query does, and otherwise is
      true of exactly the messages the grammar says. It takes the scope from the reader
      exactly when some positive word within the budget chooses one. */
  lemma ParsePrinted(q: Query, hints: seq<Hint>, compile: TermCompiler)
    requires Depth(q) <= MAX_GROUP_DEPTH && Lawful(compile)
    ensures
      var (node, end) := ParseOf(Print(q), hints, compile);
      && end.pos == |Print(q)|
      && (forall m :: Verdict(node, m) == Means(q, 0, m, compile))
      && (end.ctx.scopeExplicit <==> SomeMarks(Choice, Leaves(q, false), 0, compile))
      && (end.ctx.misbehaved <==> SomeMarks(Misbehaviour, Leaves(q, false), 0, compile))
  {
    var start := PState(0, 0, Ctx(hints, false, false));
    assert Print(q)[0..0 + |Print(q)|] == Print(q);
    SequenceReads(q, Print(q), start, 0, false, false, compile);
    forall m ensures Verdict(ParseOf(Print(q), hints, compile).0, m) == Means(q, 0, m, compile) {
      ElaborateMeans(q, 0, start, false, m, compile);
    }
    ElaborateMark(Choice, q, 0, start, false, compile);
    ElaborateMark(Misbehaviour, q, 0, start, false, compile);
  }
}
