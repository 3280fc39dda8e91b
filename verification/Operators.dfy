/** What each operator means, from the term as it is typed to the messages it finds. */
module Operators {
  import opened Wrappers
  import opened Strings
  import opened Calendar
  import opened Filters
  import opened Terms
  import opened Meaning
  import Amounts

  /** An operator and its value as typed. */
  function Term(name: string, v: string): string {
    name + ":" + v
  }

  /** What a term says of a message, if anything. */
  ghost function Says(raw: string, negated: bool, env: Env, m: Message): Option<bool> {
    Verdict(CompileTerm(raw, negated, env).filter, m)
  }

  function HintOf(raw: string, negated: bool, env: Env): Option<Hint> {
    CompileTerm(raw, negated, env).hint
  }

  /** The operator's name in any capitals, and a value, in quotation marks or not. */
  predicate Uses(name: string, word: string, v: string, value: string) {
    SameLetters(name, word) && value != "" && Unquote(v) == value
  }

  predicate PlainWord(word: string) {
    word != "" && forall i | 0 <= i < |word| :: 'a' <= word[i] <= 'z' || word[i] == '_'
  }

  const FIELDS: seq<(string, TextKey)> :=
    [("from", KeyFrom), ("to", KeyTo), ("cc", KeyCc), ("bcc", KeyBcc), ("subject", KeySubject), ("body", KeyBody)]

  lemma NameIs(name: string, word: string)
    requires SameLetters(name, word) && PlainWord(word)
    ensures Lower(name) == word && ':' !in name && name != "" && name[0] != '"'
  {
    LowerSame(name, word);
    Amounts.NoCapitalsIn(word);
    LowerOf(word);
    forall i | 0 <= i < |name| ensures name[i] != ':' && name[i] != '"' {
      CapitalIs(name[i], word[i]);
      CapitalIs(word[i], name[i]);
    }
  }

  /** A term that uses an operator is compiled by that operator's handler. */
  lemma RunsAs(name: string, word: string, v: string, value: string, negated: bool, env: Env)
    requires Uses(name, word, v, value) && HandlerFor(word).Some? && PlainWord(word)
    ensures CompileTerm(Term(name, v), negated, env) == RunHandler(HandlerFor(word).value, value, Term(name, v), negated, env)
  {
    hide CompileTerm, HandlerFor, Uses, RunHandler, Read;
    ReadsAs(name, word, v, value);
    Runs(Term(name, v), HandlerFor(word).value, value, negated, env);
  }

  lemma Runs(raw: string, op: Handler, value: string, negated: bool, env: Env)
    requires Read(raw) == Operated(op, value)
    ensures CompileTerm(raw, negated, env) == RunHandler(op, value, raw, negated, env)
  {
    hide RunHandler, Read, TextOf;
  }

  lemma ReadsAs(name: string, word: string, v: string, value: string)
    requires Uses(name, word, v, value) && HandlerFor(word).Some? && PlainWord(word)
    ensures Read(Term(name, v)) == Operated(HandlerFor(word).value, value)
  {
    hide Unquote, SameLetters, Lower, HandlerFor;
    NameIs(name, word);
    PartitionIs(name, v);
    assert Term(name, v)[0] == name[0];
  }

  // --------------------------------------------------------------- text in a field

  /** `from:`, `to:`, `cc:`, `bcc:`, `subject:` and `body:` look for their value in that field. */
  lemma FieldsSay(f: nat, name: string, v: string, value: string, negated: bool, env: Env, m: Message)
    requires f < |FIELDS| && Uses(name, FIELDS[f].0, v, value)
    ensures Says(Term(name, v), negated, env, m) == Some((FIELDS[f].1, value) in m.hits)
    ensures HintOf(Term(name, v), negated, env) == None
  {
    FieldHandler(f);
    hide CompileTerm, HandlerFor, Uses, PlainWord, Eval;
    RunsAs(name, FIELDS[f].0, v, value, negated, env);
    OneCondition(Matches(FIELDS[f].1, value), m);
  }

  lemma OneCondition(c: Condition, m: Message)
    ensures Eval(Cond(c), m) == Holds(c, m)
  {
  }

  lemma FieldHandler(f: nat)
    requires f < |FIELDS|
    ensures PlainWord(FIELDS[f].0) && HandlerFor(FIELDS[f].0) == Some(Field(FIELDS[f].1))
  {
  }

  // -------------------------------------------------------------- flags and files

  /** A value an operator does not take is looked for as ordinary text, and the reader is
      told. */
  ghost predicate SearchedAsText(raw: string, text: string, kind: HintKind, topic: Topic, negated: bool, env: Env, m: Message) {
    && Says(raw, negated, env, m) == Some((KeyText, text) in m.hits)
    && HintOf(raw, negated, env) == Some(Hint(kind, topic, Some(raw)))
  }

  lemma IsSays(name: string, v: string, value: string, negated: bool, env: Env, m: Message)
    requires Uses(name, "is", v, value)
    ensures
      var raw := Term(name, v);
      var says := Says(raw, negated, env, m);
      if SameLetters(value, "unread") then says == Some("$seen" !in m.keywords) && HintOf(raw, negated, env) == None
      else if SameLetters(value, "read") then says == Some("$seen" in m.keywords) && HintOf(raw, negated, env) == None
      else if SameLetters(value, "starred") then says == Some("$flagged" in m.keywords) && HintOf(raw, negated, env) == None
      else SearchedAsText(raw, Strip(raw), UnknownOperator, BadValue, negated, env, m)
  {
    IsWord(value);
    Handlers();
    NotBlank(name, v, "is", value);
    hide CompileTerm, RunHandler, HandlerFor, PlainWord, Uses, Eval, Strip, Lower, Unquote, SameLetters;
    RunsAs(name, "is", v, value, negated, env);
    IsRuns(value, Term(name, v), negated, env, m);
  }

  lemma IsWord(value: string)
    ensures Lower(value) == "unread" <==> SameLetters(value, "unread")
    ensures Lower(value) == "read" <==> SameLetters(value, "read")
    ensures Lower(value) == "starred" <==> SameLetters(value, "starred")
  {
    assert PlainWord("unread") && PlainWord("read") && PlainWord("starred");
    WordIs(value, "unread");
    WordIs(value, "read");
    WordIs(value, "starred");
  }

  lemma IsRuns(value: string, raw: string, negated: bool, env: Env, m: Message)
    requires Strip(raw) != ""
    ensures
      var c := RunHandler(Is, value, raw, negated, env);
      var says := Verdict(c.filter, m);
      if Lower(value) == "unread" then says == Some("$seen" !in m.keywords) && c.hint == None
      else if Lower(value) == "read" then says == Some("$seen" in m.keywords) && c.hint == None
      else if Lower(value) == "starred" then says == Some("$flagged" in m.keywords) && c.hint == None
      else says == Some((KeyText, Strip(raw)) in m.hits) && c.hint == Some(Hint(UnknownOperator, BadValue, Some(raw)))
  {
    hide Lower, Strip;
  }

  lemma Handlers()
    ensures HandlerFor("has") == Some(Has) && PlainWord("has")
    ensures HandlerFor("is") == Some(Is) && PlainWord("is")
    ensures HandlerFor("in") == Some(In) && PlainWord("in")
    ensures HandlerFor("label") == Some(Label) && PlainWord("label")
    ensures HandlerFor("filename") == Some(FileName) && PlainWord("filename")
  {
  }

  lemma BoundHandlers()
    ensures HandlerFor("before") == Some(DateBound(true)) && PlainWord("before")
    ensures HandlerFor("after") == Some(DateBound(false)) && PlainWord("after")
    ensures HandlerFor("older_than") == Some(AgeBound(true)) && PlainWord("older_than")
    ensures HandlerFor("newer_than") == Some(AgeBound(false)) && PlainWord("newer_than")
    ensures HandlerFor("larger") == Some(SizeBound(true)) && PlainWord("larger")
    ensures HandlerFor("smaller") == Some(SizeBound(false)) && PlainWord("smaller")
  {
  }

  lemma LowerPlain(word: string)
    requires PlainWord(word)
    ensures Lower(word) == word
  {
    Amounts.NoCapitalsIn(word);
    LowerOf(word);
  }

  /** A value is such a word in any capitals exactly when it is the word in small letters. */
  lemma WordIs(value: string, word: string)
    requires PlainWord(word)
    ensures Lower(value) == word <==> SameLetters(value, word)
  {
    LowerPlain(word);
    LowerSame(value, word);
  }

  lemma NotBlank(name: string, v: string, word: string, value: string)
    requires Uses(name, word, v, value) && PlainWord(word)
    ensures Strip(Term(name, v)) != ""
  {
    NameIs(name, word);
  }

  /** `has:attachment`. */
  lemma HasSays(name: string, v: string, value: string, negated: bool, env: Env, m: Message)
    requires Uses(name, "has", v, value)
    ensures
      var raw := Term(name, v);
      if SameLetters(value, "attachment") then Says(raw, negated, env, m) == Some(m.attachment) && HintOf(raw, negated, env) == None
      else SearchedAsText(raw, Strip(raw), UnknownOperator, BadValue, negated, env, m)
  {
    Handlers();
    AttachmentWord(value);
    NotBlank(name, v, "has", value);
    hide CompileTerm, RunHandler, HandlerFor, PlainWord, Uses, Eval, Strip, Lower, Unquote, SameLetters;
    RunsAs(name, "has", v, value, negated, env);
    HasRuns(value, Term(name, v), negated, env, m);
  }

  lemma AttachmentWord(value: string)
    ensures Lower(value) == "attachment" <==> SameLetters(value, "attachment")
  {
    assert PlainWord("attachment");
    WordIs(value, "attachment");
  }

  lemma HasRuns(value: string, raw: string, negated: bool, env: Env, m: Message)
    requires Strip(raw) != ""
    ensures
      var c := RunHandler(Has, value, raw, negated, env);
      if Lower(value) == "attachment" then Verdict(c.filter, m) == Some(m.attachment) && c.hint == None
      else Verdict(c.filter, m) == Some((KeyText, Strip(raw)) in m.hits) && c.hint == Some(Hint(UnknownOperator, BadValue, Some(raw)))
  {
    hide Lower, Strip;
  }

  /** There is no looking for a file by its name: the name is looked for everywhere, and
      the reader is told. */
  lemma FileNameSays(name: string, v: string, value: string, negated: bool, env: Env, m: Message)
    requires Uses(name, "filename", v, value)
    ensures SearchedAsText(Term(name, v), value, Approximated, FileNames, negated, env, m)
  {
    Handlers();
    UnquotedTrim(v);
    assert Unquote(v) == value && Trim(value);
    hide CompileTerm, RunHandler, HandlerFor, PlainWord, Uses, Trim, Eval, Strip, Lower, Unquote, SameLetters;
    RunsAs(name, "filename", v, value, negated, env);
    FileNameRuns(value, Term(name, v), negated, env, m);
  }

  lemma FileNameRuns(value: string, raw: string, negated: bool, env: Env, m: Message)
    requires Trim(value)
    ensures
      var c := RunHandler(FileName, value, raw, negated, env);
      Verdict(c.filter, m) == Some((KeyText, value) in m.hits) && c.hint == Some(Hint(Approximated, FileNames, Some(raw)))
  {
    StripTrim(value);
    hide Strip;
  }

  lemma UnquotedTrim(v: string)
    ensures Unquote(v) != "" ==> Trim(Unquote(v))
  {
  }

  // ---------------------------------------------------------------------- places

  const FOLDER_WORDS: seq<string> := ["inbox", "sent", "drafts", "archive", "spam", "trash"]

  /** One mailbox lookup: the messages of that mailbox, or none, which the reader is told. */
  ghost predicate LooksIn(raw: string, answer: Answer, topic: Topic, negated: bool, env: Env, m: Message) {
    var c := CompileTerm(raw, negated, env);
    && (if answer.Found? && answer.id != "" then Says(raw, negated, env, m) == Some(answer.id in m.mailboxes) && c.hint == None && !c.misbehaves
        else
          && Says(raw, negated, env, m) == Some(false) && c.hint == Some(Hint(UnknownLabel, topic, Some(raw)))
          && (c.misbehaves <==> !answer.NoSuch?))
    && (c.choosesScope <==> !negated)
  }

  lemma MailboxRuns(answer: Answer, topic: Topic, raw: string, negated: bool, m: Message)
    ensures
      var c := MailboxCondition(answer, topic, raw, negated);
      && (if answer.Found? && answer.id != "" then Verdict(c.filter, m) == Some(answer.id in m.mailboxes) && c.hint == None && !c.misbehaves
          else
            && Verdict(c.filter, m) == Some(false) && c.hint == Some(Hint(UnknownLabel, topic, Some(raw)))
            && (c.misbehaves <==> !answer.NoSuch?))
      && (c.choosesScope <==> !negated)
  {
    if answer.Found? {
      OneCondition(InMailbox(answer.id), m);
    }
    hide MatchNothing;
  }

  lemma LabelSays(name: string, v: string, value: string, negated: bool, env: Env, m: Message)
    requires Uses(name, "label", v, value)
    ensures LooksIn(Term(name, v), env.byLabel(value), NoSuchLabel, negated, env, m)
  {
    Handlers();
    hide CompileTerm, RunHandler, HandlerFor, PlainWord, Uses, Eval, Strip, Lower, Unquote, SameLetters;
    RunsAs(name, "label", v, value, negated, env);
    LabelRuns(value, Term(name, v), negated, env);
    hide MailboxCondition;
    MailboxRuns(env.byLabel(value), NoSuchLabel, Term(name, v), negated, m);
  }

  lemma LabelRuns(value: string, raw: string, negated: bool, env: Env)
    ensures RunHandler(Label, value, raw, negated, env) == MailboxCondition(env.byLabel(value), NoSuchLabel, raw, negated)
  {
    hide MailboxCondition;
  }

  lemma InRuns(value: string, raw: string, negated: bool, env: Env)
    ensures
      RunHandler(In, value, raw, negated, env) ==
        match PlaceOf(value)
        case Anywhere =>
          Compiled(None, if negated then Some(Hint(UnknownOperator, NegatedAnywhere, Some(raw))) else None, !negated, false)
        case Folder(role) => MailboxCondition(env.byRole(role), NoSuchFolder, raw, negated)
        case Labelled(name) => MailboxCondition(env.byLabel(name), NoSuchLabel, raw, negated)
  {
    hide MailboxCondition, PlaceOf;
  }

  /** `in:` a system folder, whatever its capitals; `in:anywhere`, which drops the scope and
      cannot be excluded; and otherwise a label. */
  lemma InSays(name: string, v: string, value: string, negated: bool, env: Env, m: Message)
    requires Uses(name, "in", v, value)
    ensures
      var raw := Term(name, v);
      var c := CompileTerm(raw, negated, env);
      && (forall f | 0 <= f < |FOLDER_WORDS| && SameLetters(value, FOLDER_WORDS[f]) ::
            LooksIn(raw, env.byRole(FOLDER_WORDS[f]), NoSuchFolder, negated, env, m))
      && (SameLetters(value, "anywhere") ==>
            && Says(raw, negated, env, m) == None && (c.choosesScope <==> !negated) && !c.misbehaves
            && c.hint == if negated then Some(Hint(UnknownOperator, NegatedAnywhere, Some(raw))) else None)
      && (!SameLetters(value, "anywhere") && (forall f | 0 <= f < |FOLDER_WORDS| :: !SameLetters(value, FOLDER_WORDS[f])) ==>
            LooksIn(raw, env.byLabel(value), NoSuchLabel, negated, env, m))
  {
    Handlers();
    hide CompileTerm, RunHandler, HandlerFor, PlainWord, Uses, Eval, Strip, Lower, Unquote, SameLetters;
    RunsAs(name, "in", v, value, negated, env);
    InRuns(value, Term(name, v), negated, env);
    hide MailboxCondition, PlaceOf;
    PlaceIs(value);
    var raw := Term(name, v);
    match PlaceOf(value)
    case Anywhere =>
    case Folder(role) => MailboxRuns(env.byRole(role), NoSuchFolder, raw, negated, m);
    case Labelled(_) => MailboxRuns(env.byLabel(value), NoSuchLabel, raw, negated, m);
  }

  lemma PlaceIs(value: string)
    ensures forall f | 0 <= f < |FOLDER_WORDS| && SameLetters(value, FOLDER_WORDS[f]) :: PlaceOf(value) == Folder(FOLDER_WORDS[f])
    ensures SameLetters(value, "anywhere") ==> PlaceOf(value) == Anywhere
    ensures !SameLetters(value, "anywhere") && (forall f | 0 <= f < |FOLDER_WORDS| :: !SameLetters(value, FOLDER_WORDS[f])) ==>
              PlaceOf(value) == Labelled(value)
  {
    AnywhereWord(value);
    forall f | 0 <= f < |FOLDER_WORDS| ensures FOLDER_WORDS[f] in FOLDERS && (Lower(value) == FOLDER_WORDS[f] <==> SameLetters(value, FOLDER_WORDS[f])) {
      FolderWord(f);
      LowerPlain(FOLDER_WORDS[f]);
      LowerSame(value, FOLDER_WORDS[f]);
    }
    FolderWords(Lower(value));
    hide SameLetters, Lower;
  }

  lemma AnywhereWord(value: string)
    ensures Lower(value) == "anywhere" <==> SameLetters(value, "anywhere")
  {
    assert PlainWord("anywhere");
    WordIs(value, "anywhere");
  }

  lemma FolderWord(f: nat)
    requires f < |FOLDER_WORDS|
    ensures PlainWord(FOLDER_WORDS[f]) && FOLDER_WORDS[f] in FOLDERS && FOLDER_WORDS[f] != "anywhere"
  {
  }

  lemma FolderWords(word: string)
    ensures word in FOLDERS <==> exists f :: 0 <= f < |FOLDER_WORDS| && FOLDER_WORDS[f] == word
  {
    assert FOLDER_WORDS[0] == "inbox" && FOLDER_WORDS[1] == "sent" && FOLDER_WORDS[2] == "drafts";
    assert FOLDER_WORDS[3] == "archive" && FOLDER_WORDS[4] == "spam" && FOLDER_WORDS[5] == "trash";
  }

  // ------------------------------------------------------------- sizes and times

  const LARGEST: nat := 9_007_199_254_740_991

  /** A value that is not an amount: the term is dropped, and the reader is told. */
  ghost predicate Dropped(raw: string, kind: HintKind, topic: Topic, negated: bool, env: Env) {
    CompileTerm(raw, negated, env).filter == None && HintOf(raw, negated, env) == Some(Hint(kind, topic, Some(raw)))
  }

  /** `larger:` is at least so many bytes and `smaller:` is less, up to the largest number a
      request can hold. */
  lemma SizeSays(larger: bool, name: string, v: string, value: string, negated: bool, env: Env, m: Message)
    requires Uses(name, if larger then "larger" else "smaller", v, value)
    ensures
      var raw := Term(name, v);
      match Amounts.ReadSize(value)
      case None => Dropped(raw, BadSize, NotASize, negated, env)
      case Some(n) =>
        var bytes := if n > LARGEST then LARGEST else n;
        && Says(raw, negated, env, m) == Some(if larger then m.size >= bytes else m.size < bytes)
        && HintOf(raw, negated, env) == if n > LARGEST then Some(Hint(Approximated, SizeClamped, Some(raw))) else None
  {
    var word := if larger then "larger" else "smaller";
    BoundHandlers();
    hide CompileTerm, RunHandler, HandlerFor, PlainWord, Uses, Eval, Strip, Lower, Unquote, SameLetters;
    hide Amounts.ReadSize;
    RunsAs(name, word, v, value, negated, env);
    SizeRuns(larger, value, Term(name, v), negated, env, m);
  }

  lemma SizeRuns(larger: bool, value: string, raw: string, negated: bool, env: Env, m: Message)
    ensures
      var c := RunHandler(SizeBound(larger), value, raw, negated, env);
      match Amounts.ReadSize(value)
      case None => c.filter == None && c.hint == Some(Hint(BadSize, NotASize, Some(raw)))
      case Some(n) =>
        var bytes := if n > LARGEST then LARGEST else n;
        && Verdict(c.filter, m) == Some(if larger then m.size >= bytes else m.size < bytes)
        && c.hint == if n > LARGEST then Some(Hint(Approximated, SizeClamped, Some(raw))) else None
  {
    hide Amounts.ReadSize;
  }

  /** `before:` is earlier than the start of that day and `after:` is from then on. */
  lemma DateSays(before: bool, name: string, v: string, value: string, negated: bool, env: Env, m: Message)
    requires Uses(name, if before then "before" else "after", v, value)
    ensures
      var raw := Term(name, v);
      match Amounts.ReadDate(value)
      case None => Dropped(raw, BadDate, NotADate, negated, env)
      case Some(when) =>
        && Says(raw, negated, env, m) == Some(if before then Instant(m.receivedAt) < Instant(when) else Instant(m.receivedAt) >= Instant(when))
        && HintOf(raw, negated, env) == None
  {
    var word := if before then "before" else "after";
    BoundHandlers();
    hide CompileTerm, RunHandler, HandlerFor, PlainWord, Uses, Eval, Strip, Lower, Unquote, SameLetters;
    hide Amounts.ReadDate;
    hide Instant;
    RunsAs(name, word, v, value, negated, env);
    DateRuns(before, value, Term(name, v), negated, env, m);
  }

  lemma DateRuns(before: bool, value: string, raw: string, negated: bool, env: Env, m: Message)
    ensures
      var c := RunHandler(DateBound(before), value, raw, negated, env);
      match Amounts.ReadDate(value)
      case None => c.filter == None && c.hint == Some(Hint(BadDate, NotADate, Some(raw)))
      case Some(when) =>
        && Verdict(c.filter, m) == Some(if before then Instant(m.receivedAt) < Instant(when) else Instant(m.receivedAt) >= Instant(when))
        && c.hint == None
  {
    hide Instant;
    hide Amounts.ReadDate;
    match Amounts.ReadDate(value)
    case None =>
    case Some(when) => BoundSays(before, when, m);
  }

  lemma BoundSays(before: bool, when: DateTime, m: Message)
    ensures Eval(Cond(Bound(before, when)), m) <==>
            if before then Instant(m.receivedAt) < Instant(when) else Instant(m.receivedAt) >= Instant(when)
  {
    OrderIsTime(when, m.receivedAt);
    hide Instant;
  }

  /** `older_than:` and `newer_than:` are the same of the moment that long ago, to the second. */
  lemma AgeSays(older: bool, name: string, v: string, value: string, negated: bool, env: Env, m: Message)
    requires Uses(name, if older then "older_than" else "newer_than", v, value)
    ensures
      var raw := Term(name, v);
      match Amounts.ReadAge(value)
      case None => Dropped(raw, BadDate, NotAnAge, negated, env)
      case Some((amount, unit)) =>
        var ago := Instant(ShiftBack(env.now, amount, unit));
        var from := ago - ago % 1_000_000;
        && Says(raw, negated, env, m) == Some(if older then Instant(m.receivedAt) < from else Instant(m.receivedAt) >= from)
        && HintOf(raw, negated, env) == None
  {
    var word := if older then "older_than" else "newer_than";
    BoundHandlers();
    hide CompileTerm, RunHandler, HandlerFor, PlainWord, Uses, Eval, Strip, Lower, Unquote, SameLetters;
    hide Amounts.ReadAge;
    hide Instant, ShiftBack;
    RunsAs(name, word, v, value, negated, env);
    AgeRuns(older, value, Term(name, v), negated, env, m);
  }

  lemma AgeRuns(older: bool, value: string, raw: string, negated: bool, env: Env, m: Message)
    ensures
      var c := RunHandler(AgeBound(older), value, raw, negated, env);
      match Amounts.ReadAge(value)
      case None => c.filter == None && c.hint == Some(Hint(BadDate, NotAnAge, Some(raw)))
      case Some((amount, unit)) =>
        var ago := Instant(ShiftBack(env.now, amount, unit));
        var from := ago - ago % 1_000_000;
        && Verdict(c.filter, m) == Some(if older then Instant(m.receivedAt) < from else Instant(m.receivedAt) >= from)
        && c.hint == None
  {
    hide Instant, ShiftBack, ToWire;
    hide Amounts.ReadAge;
    match Amounts.ReadAge(value)
    case None =>
    case Some((amount, unit)) =>
      BoundSays(older, ToWire(ShiftBack(env.now, amount, unit)), m);
      WholeSecond(ShiftBack(env.now, amount, unit));
  }

  lemma WholeSecond(when: DateTime)
    ensures Instant(ToWire(when)) == Instant(when) - Instant(when) % 1_000_000
  {
    assert Ordinal(ToWire(when)) == Ordinal(when);
    hide Ordinal;
    var second := when.micros / 1_000_000;
    RestOf(Ordinal(when) * 86_400 + second, when.micros - second * 1_000_000);
    assert Instant(when) == (Ordinal(when) * 86_400 + second) * 1_000_000 + (when.micros - second * 1_000_000);
  }

  lemma RestOf(seconds: int, rest: int)
    requires 0 <= rest < 1_000_000
    ensures (seconds * 1_000_000 + rest) % 1_000_000 == rest
  {
  }

  // ----------------------------------------------------------------- plain words

  /** Anything without a colon is looked for as it stands, and a phrase in quotation marks
      as what is inside them. */
  lemma WordSays(raw: string, negated: bool, env: Env, m: Message)
    requires raw != "" && raw[0] != '"' && ':' !in raw && Strip(raw) != ""
    ensures Says(raw, negated, env, m) == Some((KeyText, Strip(raw)) in m.hits) && HintOf(raw, negated, env) == None
  {
    hide Strip;
  }

  lemma PhraseSays(raw: string, negated: bool, env: Env, m: Message)
    requires raw != "" && raw[0] == '"'
    ensures
      if Unquote(raw) == "" then Dropped(raw, Unbalanced, EmptyQuotes, negated, env)
      else Says(raw, negated, env, m) == Some((KeyText, Unquote(raw)) in m.hits) && HintOf(raw, negated, env) == None
  {
    UnquotedTrim(raw);
    hide Unquote;
    if Unquote(raw) != "" {
      StripTrim(Unquote(raw));
      hide Strip;
    }
  }

  const NAMES: seq<string> := [
    "from", "to", "cc", "bcc", "subject", "body", "has", "is", "in", "label",
    "before", "after", "older_than", "newer_than", "larger", "smaller", "filename"]

  /** An operator with nothing after it is dropped. */
  lemma NothingSays(k: nat, name: string, v: string, negated: bool, env: Env)
    requires k < |NAMES| && SameLetters(name, NAMES[k]) && Unquote(v) == ""
    ensures Dropped(Term(name, v), UnknownOperator, NoValue, negated, env)
  {
    NameKnown(k);
    NameIs(name, NAMES[k]);
    PartitionIs(name, v);
    assert Term(name, v)[0] == name[0];
    hide HandlerFor, SameLetters, Unquote, Lower, CompileTerm;
    NothingRuns(Term(name, v), name, v, negated, env);
  }

  lemma NothingRuns(raw: string, name: string, v: string, negated: bool, env: Env)
    requires raw != "" && raw[0] != '"' && Partition(raw) == Some((name, v)) && HandlerFor(Lower(name)).Some? && Unquote(v) == ""
    ensures Dropped(raw, UnknownOperator, NoValue, negated, env)
  {
    hide Partition, HandlerFor, Lower, Unquote, RunHandler;
  }

  lemma NameKnown(k: nat)
    requires k < |NAMES|
    ensures PlainWord(NAMES[k]) && HandlerFor(NAMES[k]).Some?
  {
  }

  /** Any other name before a colon is ordinary text, colon and all; when it looks like an
      operator, and no web address, the reader is told. */
  lemma UnknownSays(name: string, v: string, negated: bool, env: Env, m: Message)
    requires ':' !in name && (name != "" ==> name[0] != '"') && Strip(Term(name, v)) != ""
    requires forall k | 0 <= k < |NAMES| :: !SameLetters(name, NAMES[k])
    ensures
      var raw := Term(name, v);
      && Says(raw, negated, env, m) == Some((KeyText, Strip(raw)) in m.hits)
      && HintOf(raw, negated, env) ==
           if 1 <= |name| <= 20 && (forall i | 0 <= i < |name| :: name[i] in "abcdefghijklmnopqrstuvwxyz_" || name[i] in "ABCDEFGHIJKLMNOPQRSTUVWXYZ")
              && (v == "" || v[0] != '/')
           then Some(Hint(UnknownOperator, NotAnOperator, Some(raw))) else None
  {
    PartitionIs(name, v);
    NoHandler(name);
    OperatorLetters(name);
    assert name != "" ==> Term(name, v)[0] == name[0];
    hide Strip, HandlerFor, Lower, Unquote, SameLetters, LooksLikeOperator, RunHandler;
    UnknownRuns(Term(name, v), name, v, negated, env, m);
  }

  lemma UnknownRuns(raw: string, name: string, v: string, negated: bool, env: Env, m: Message)
    requires raw != "" && raw[0] != '"' && Partition(raw) == Some((name, v)) && HandlerFor(Lower(name)) == None
    requires Strip(raw) != ""
    ensures
      && Says(raw, negated, env, m) == Some((KeyText, Strip(raw)) in m.hits)
      && HintOf(raw, negated, env) ==
           if LooksLikeOperator(name) && (v == "" || v[0] != '/') then Some(Hint(UnknownOperator, NotAnOperator, Some(raw))) else None
  {
    hide Strip, HandlerFor, Lower, Unquote, LooksLikeOperator, RunHandler, Partition;
  }

  lemma NoHandler(name: string)
    requires forall k | 0 <= k < |NAMES| :: !SameLetters(name, NAMES[k])
    ensures HandlerFor(Lower(name)) == None
  {
    if HandlerFor(Lower(name)) != None {
      var k := HandledName(Lower(name));
      NameKnown(k);
      LowerSame(name, name);
    }
  }

  lemma HandledName(word: string) returns (k: nat)
    requires HandlerFor(word).Some?
    ensures k < |NAMES| && NAMES[k] == word
  {
    k := if word == "from" then 0 else if word == "to" then 1 else if word == "cc" then 2 else if word == "bcc" then 3
         else if word == "subject" then 4 else if word == "body" then 5 else if word == "has" then 6 else if word == "is" then 7
         else if word == "in" then 8 else if word == "label" then 9 else if word == "before" then 10 else if word == "after" then 11
         else if word == "older_than" then 12 else if word == "newer_than" then 13 else if word == "larger" then 14
         else if word == "smaller" then 15 else 16;
  }

  lemma OperatorLetters(name: string)
    ensures LooksLikeOperator(name) <==>
            1 <= |name| <= 20 && forall i | 0 <= i < |name| :: name[i] in "abcdefghijklmnopqrstuvwxyz_" || name[i] in "ABCDEFGHIJKLMNOPQRSTUVWXYZ"
  {
    forall c: char ensures ('a' <= c <= 'z' || c == '_' <==> c in "abcdefghijklmnopqrstuvwxyz_") && ('A' <= c <= 'Z' <==> c in "ABCDEFGHIJKLMNOPQRSTUVWXYZ") {
      SmallLetters(c);
      CapitalIs(c, c);
    }
  }

  lemma SmallLetters(c: char)
    ensures 'a' <= c <= 'z' || c == '_' <==> c in "abcdefghijklmnopqrstuvwxyz_"
  {
    var letters := "abcdefghijklmnopqrstuvwxyz_";
    assert letters[26] == '_' && forall i | 0 <= i < 26 :: letters[i] as int == 'a' as int + i;
    if 'a' <= c <= 'z' {
      assert c == letters[c as int - 'a' as int];
    }
  }
}
