/** One search term to one filter condition: the operator table, its handlers, and the
    hints and scope choices they leave behind. */
module Terms {
  import opened Wrappers
  import opened Strings
  import opened Calendar
  import opened Filters
  import Amounts

  // -------------------------------------------------------------------- hints

  datatype HintKind =
    | UnknownOperator | BadDate | BadSize | UnknownLabel | Unbalanced | Approximated | ScopeUncertain

  /** Which sentence the reader is shown. The wording itself is a function of the topic
      and the token, so two hints are the same exactly when all three fields are. */
  datatype Topic =
    | OpenQuote | EmptyQuotes | StrayClose | MissingOrSide | BareMinus | TooManyBrackets
    | OpenBracket | EmptyBrackets | NotAnOperator | NoValue | BadValue | NegatedAnywhere
    | NoSuchFolder | NoSuchLabel | NotADate | NotAnAge | NotASize | SizeClamped | FileNames
    | TooLong | NotUnderstood | SpamAndTrashUnknown

  datatype Hint = Hint(kind: HintKind, topic: Topic, token: Option<string>)

  /** What a parse accumulates besides the tree and the term budget. */
  datatype Ctx = Ctx(hints: seq<Hint>, scopeExplicit: bool, misbehaved: bool)

  /** `_Ctx.hint`: record a hint unless it is already there. */
  function AddHint(hints: seq<Hint>, hint: Hint): (r: seq<Hint>)
    ensures hint in r && hints <= r
    ensures forall h :: h in r ==> h in hints || h == hint
    ensures Distinct(hints) ==> Distinct(r)
  {
    if hint in hints then hints else hints + [hint]
  }

  function WithHint(ctx: Ctx, kind: HintKind, topic: Topic, token: Option<string>): (r: Ctx)
    ensures Hint(kind, topic, token) in r.hints && ctx.hints <= r.hints
    ensures r.scopeExplicit == ctx.scopeExplicit && r.misbehaved == ctx.misbehaved
    ensures Distinct(ctx.hints) ==> Distinct(r.hints)
  {
    ctx.(hints := AddHint(ctx.hints, Hint(kind, topic, token)))
  }

  // -------------------------------------------------------------- environment

  /** What the caller's resolver did with one lookup: it raised, it answered something
      that is not a mailbox id, it said there is no such mailbox, or it found one. */
  datatype Answer = Raised | NotAnId | NoSuch | Found(id: string)

  /** What the parse is given: the two mailbox lookups and the clock. */
  datatype Env = Env(
    byRole: string -> Answer,
    byLabel: string -> Answer,
    now: DateTime)

  /** `_Ctx._resolve`: anything but a non-empty string is "no such mailbox". */
  function Resolved(answer: Answer): (r: Option<string>)
    ensures r.Some? ==> answer.Found? && r.value == answer.id != ""
  {
    if answer.Found? && answer.id != "" then Some(answer.id) else None
  }

  /** Whether that lookup leaves the resolver marked as misbehaving. */
  predicate Misbehaves(answer: Answer) {
    answer.Raised? || answer.NotAnId? || (answer.Found? && answer.id == "")
  }

  // ---------------------------------------------------------------- operators

  datatype Handler =
    | Field(key: TextKey) | Has | Is | In | Label
    | DateBound(before: bool) | AgeBound(before: bool) | SizeBound(larger: bool) | FileName

  /** `_OPERATOR_HANDLERS`, keyed by the lower-cased name. */
  function HandlerFor(name: string): Option<Handler> {
    if name == "from" then Some(Field(KeyFrom))
    else if name == "to" then Some(Field(KeyTo))
    else if name == "cc" then Some(Field(KeyCc))
    else if name == "bcc" then Some(Field(KeyBcc))
    else if name == "subject" then Some(Field(KeySubject))
    else if name == "body" then Some(Field(KeyBody))
    else if name == "has" then Some(Has)
    else if name == "is" then Some(Is)
    else if name == "in" then Some(In)
    else if name == "label" then Some(Label)
    else if name == "before" then Some(DateBound(true))
    else if name == "after" then Some(DateBound(false))
    else if name == "older_than" then Some(AgeBound(true))
    else if name == "newer_than" then Some(AgeBound(false))
    else if name == "larger" then Some(SizeBound(true))
    else if name == "smaller" then Some(SizeBound(false))
    else if name == "filename" then Some(FileName)
    else None
  }

  const FOLDERS: set<string> := {"inbox", "sent", "drafts", "archive", "spam", "trash"}

  /** JMAP's largest `UnsignedInt`, section 1.3 of RFC 8620. */
  const MAX_SIZE: nat := 0x1F_FFFF_FFFF_FFFF

  /** What compiling one term produced: the condition, at most one hint, and its effect
      on the two flags. */
  datatype Compiled = Compiled(
    filter: Option<Filter>, hint: Option<Hint>, choosesScope: bool, misbehaves: bool)

  function Plain(filter: Option<Filter>): Compiled {
    Compiled(filter, None, false, false)
  }

  function Hinted(filter: Option<Filter>, kind: HintKind, topic: Topic, raw: string): Compiled {
    Compiled(filter, Some(Hint(kind, topic, Some(raw))), false, false)
  }

  function TextOf(value: string): Option<Filter> {
    var text := Strip(value);
    if text == "" then None else Some(Cond(Matches(KeyText, text)))
  }

  function MailboxCondition(answer: Answer, topic: Topic, raw: string, negated: bool): Compiled {
    match Resolved(answer)
    case Some(id) => Compiled(Some(Cond(InMailbox(id))), None, !negated, false)
    case None =>
      Compiled(Some(MatchNothing()), Some(Hint(UnknownLabel, topic, Some(raw))), !negated, Misbehaves(answer))
  }

  /** What may follow `is:`. */
  function IsCondition(value: string): Option<Condition> {
    var word := Lower(value);
    if word == "unread" then Some(NotKeyword(SEEN))
    else if word == "read" then Some(HasKeyword(SEEN))
    else if word == "starred" then Some(HasKeyword(FLAGGED))
    else None
  }

  /** What `in:` points at: everywhere, a system folder, or a label by name. */
  datatype Place = Anywhere | Folder(role: string) | Labelled(name: string)

  function PlaceOf(value: string): Place {
    var word := Lower(value);
    if word == "anywhere" then Anywhere
    else if word in FOLDERS then Folder(word)
    else Labelled(value)
  }

  function GoTo(place: Place, raw: string, negated: bool, env: Env): Compiled {
    match place
    case Anywhere =>
      if negated then Hinted(None, UnknownOperator, NegatedAnywhere, raw)
      else Compiled(None, None, true, false)
    case Folder(role) => MailboxCondition(env.byRole(role), NoSuchFolder, raw, negated)
    case Labelled(name) => MailboxCondition(env.byLabel(name), NoSuchLabel, raw, negated)
  }

  function RunHandler(op: Handler, value: string, raw: string, negated: bool, env: Env): Compiled {
    match op
    case Field(key) => Plain(Some(Cond(Matches(key, value))))
    case Has =>
      if Lower(value) == "attachment" then Plain(Some(Cond(HasAttachment)))
      else Hinted(TextOf(raw), UnknownOperator, BadValue, raw)
    case Is =>
      (match IsCondition(value)
       case None => Hinted(TextOf(raw), UnknownOperator, BadValue, raw)
       case Some(cond) => Plain(Some(Cond(cond))))
    case In => GoTo(PlaceOf(value), raw, negated, env)
    case Label => GoTo(Labelled(value), raw, negated, env)
    case DateBound(before) =>
      (match Amounts.ReadDate(value)
       case None => Hinted(None, BadDate, NotADate, raw)
       case Some(when) => Plain(Some(Cond(Bound(before, when)))))
    case AgeBound(before) =>
      (match Amounts.ReadAge(value)
       case None => Hinted(None, BadDate, NotAnAge, raw)
       case Some((amount, unit)) =>
         Plain(Some(Cond(Bound(before, ToWire(ShiftBack(env.now, amount, unit)))))))
    case SizeBound(larger) =>
      (match Amounts.ReadSize(value)
       case None => Hinted(None, BadSize, NotASize, raw)
       case Some(size) =>
         if size > MAX_SIZE then
           Hinted(Some(Cond(SizeCondition(larger, MAX_SIZE))), Approximated, SizeClamped, raw)
         else Plain(Some(Cond(SizeCondition(larger, size)))))
    case FileName => Hinted(TextOf(value), Approximated, FileNames, raw)
  }

  function Bound(before: bool, when: DateTime): Condition {
    if before then Before(when) else After(when)
  }

  function SizeCondition(larger: bool, size: nat): Condition {
    if larger then MinSize(size) else MaxSize(size)
  }

  /** How a term reads before anything is looked up. */
  datatype Reading =
    | EmptyPhrase
    | Phrase(text: string)
    | BareWord
    | FailedOperator
    | Valueless
    | Operated(op: Handler, value: string)

  function Read(raw: string): (r: Reading)
    ensures r.Phrase? ==> !Blank(r.text)
    ensures r.Operated? ==> !Blank(r.value)
  {
    if raw != "" && raw[0] == '"' then
      if Unquote(raw) == "" then EmptyPhrase else Phrase(Unquote(raw))
    else
      match Partition(raw)
      case None => BareWord
      case Some((name, value)) =>
        match HandlerFor(Lower(name))
        case None =>
          if LooksLikeOperator(name) && !(value != "" && value[0] == '/') then FailedOperator else BareWord
        case Some(op) =>
          if Unquote(value) == "" then Valueless else Operated(op, Unquote(value))
  }

  /** `_compile_term`. */
  function CompileTerm(raw: string, negated: bool, env: Env): Compiled {
    CompileReading(Read(raw), raw, negated, env)
  }

  function CompileReading(reading: Reading, raw: string, negated: bool, env: Env): Compiled {
    match reading
    case EmptyPhrase => Hinted(None, Unbalanced, EmptyQuotes, raw)
    case Phrase(text) => Plain(TextOf(text))
    case BareWord => Plain(TextOf(raw))
    case FailedOperator => Hinted(TextOf(raw), UnknownOperator, NotAnOperator, raw)
    case Valueless => Hinted(None, UnknownOperator, NoValue, raw)
    case Operated(op, value) => RunHandler(op, value, raw, negated, env)
  }

  /** The compiled term's effect on the accumulated context. */
  function Absorb(ctx: Ctx, c: Compiled): (r: Ctx)
    ensures ctx.hints <= r.hints
    ensures c.hint.Some? ==> c.hint.value in r.hints
    ensures r.scopeExplicit == (ctx.scopeExplicit || c.choosesScope)
    ensures r.misbehaved == (ctx.misbehaved || c.misbehaves)
    ensures Distinct(ctx.hints) ==> Distinct(r.hints)
  {
    Ctx(if c.hint.Some? then AddHint(ctx.hints, c.hint.value) else ctx.hints,
        ctx.scopeExplicit || c.choosesScope,
        ctx.misbehaved || c.misbehaves)
  }

  // --------------------------------------------------------------- properties

  /** An `in:` or `label:` term that has a value. */
  predicate IsScopeTerm(raw: string) {
    ReadsAsScope(Read(raw))
  }

  predicate ReadsAsScope(reading: Reading) {
    reading.Operated? && (reading.op.In? || reading.op.Label?)
  }

  predicate IsAnywhere(raw: string) {
    ReadsAsAnywhere(Read(raw))
  }

  predicate ReadsAsAnywhere(reading: Reading) {
    reading.Operated? && reading.op.In? && PlaceOf(reading.value).Anywhere?
  }

  /** The condition a term stands for. */
  function TermFilter(raw: string, env: Env): Option<Filter> {
    CompileTerm(raw, false, env).filter
  }

  /** What every reading of a term compiles to. Negation around a term never changes its
      condition; exactly the positive `in:` and `label:` terms choose the scope; a term is
      dropped only when it is a positive `in:anywhere` or when a hint quotes it; and what
      is kept is one condition or the three-node contradiction. */
  lemma ReadingLaws(reading: Reading, raw: string, negated: bool, env: Env)
    requires reading.Phrase? ==> !Blank(reading.text)
    requires reading.Operated? ==> !Blank(reading.value)
    ensures
      var c := CompileReading(reading, raw, negated, env);
      && c.filter == CompileReading(reading, raw, false, env).filter
      && (c.choosesScope <==> !negated && ReadsAsScope(reading))
      && (c.misbehaves <==> ReadsAsScope(reading) && !ReadsAsAnywhere(reading) && Misbehaves(LookupOf(reading, env)))
      && (c.filter.None? && !Blank(raw) ==>
            || (ReadsAsAnywhere(reading) && !negated)
            || (c.hint.Some? && c.hint.value.token == Some(raw)))
      && (c.filter.Some? ==> c.filter.value.Cond? || c.filter.value == MatchNothing())
  {
    hide ShiftBack, Lower, Strip, Size;
    hide Amounts.ReadDate;
    hide Amounts.ReadAge;
    hide Amounts.ReadSize;
    if reading.Operated? {
      match reading.op
      case In => var place := PlaceOf(reading.value);
      case _ =>
    }
  }

  /** No term leaves a hint about brackets, `OR`s or minus signs. */
  lemma ReadingTopic(reading: Reading, raw: string, negated: bool, env: Env)
    ensures
      var c := CompileReading(reading, raw, negated, env);
      c.hint.Some? ==> c.hint.value.topic !in {TooManyBrackets, StrayClose, OpenBracket, BareMinus, MissingOrSide}
  {
    hide ShiftBack, Lower, PlaceOf, TextOf, MatchNothing;
    hide Amounts.ReadDate;
    hide Amounts.ReadAge;
    hide Amounts.ReadSize;
  }

  lemma TermLaws(raw: string, negated: bool, env: Env)
    ensures
      var c := CompileTerm(raw, negated, env);
      && c.filter == TermFilter(raw, env)
      && (c.choosesScope <==> !negated && IsScopeTerm(raw))
      && (c.filter.None? && !Blank(raw) ==>
            || (IsAnywhere(raw) && !negated)
            || (c.hint.Some? && c.hint.value.token == Some(raw)))
      && (c.filter.Some? ==>
            && Normal(c.filter.value) && Size(c.filter.value) <= 3 && !NotRooted(c.filter.value))
  {
    ReadingLaws(Read(raw), raw, negated, env);
    MatchNothingShape();
  }

  lemma MatchNothingShape()
    ensures Normal(MatchNothing()) && Size(MatchNothing()) == 3
  {
    var args := MatchNothing().args;
    assert SizeAll(args) == 1 + SizeAll(args[1..]);
    assert SizeAll(args[1..]) == 1 + SizeAll(args[1..][1..]);
  }

  /** The one mailbox lookup an `in:` or `label:` term makes. */
  function LookupOf(reading: Reading, env: Env): Answer
    requires ReadsAsScope(reading) && !ReadsAsAnywhere(reading)
  {
    match if reading.op.In? then PlaceOf(reading.value) else Labelled(reading.value)
    case Folder(role) => env.byRole(role)
    case Labelled(name) => env.byLabel(name)
  }

  /** A label or folder that cannot be resolved narrows to nothing, whatever else the
      account has; it never widens. One that can be is where the message has to be. */
  lemma UnresolvedMatchesNothing(reading: Reading, raw: string, negated: bool, env: Env, m: Message)
    requires ReadsAsScope(reading) && !ReadsAsAnywhere(reading)
    ensures
      var f := CompileReading(reading, raw, negated, env).filter;
      match Resolved(LookupOf(reading, env))
      case None => f.Some? && !Eval(f.value, m)
      case Some(id) => f.Some? && (Eval(f.value, m) <==> Holds(InMailbox(id), m))
  {
  }

  /** `larger:` and `smaller:` split every message at the same size, `before:` and
      `after:` at the same instant, with no message on both sides or on neither. */
  lemma BoundsPartition(value: nat, when: DateTime, m: Message)
    ensures Holds(SizeCondition(true, value), m) != Holds(SizeCondition(false, value), m)
    ensures Holds(Bound(true, when), m) != Holds(Bound(false, when), m)
  {
  }
}
