/** Splitting typed text into terms, brackets, `OR`s and minus signs. */
module Tokenizer {
  import opened Wrappers
  import opened Strings
  import opened Terms

  datatype Token = Term(raw: string) | OrWord | Minus | Open | Close

  const MAX_QUERY_CHARS: nat := 4096

  predicate IsBoundary(c: char) {
    IsSpace(c) || c == '(' || c == ')'
  }

  /** How far a term reaches: quotes suspend its boundaries. */
  function TermLength(s: string, inQuotes: bool): (n: nat)
    ensures n <= |s|
  {
    if s == "" then 0
    else if s[0] == '"' then 1 + TermLength(s[1..], !inQuotes)
    else if !inQuotes && IsBoundary(s[0]) then 0
    else 1 + TermLength(s[1..], inQuotes)
  }

  /** Whether a quotation mark is still open after reading all of `s`. */
  predicate QuoteOpen(s: string, inQuotes: bool) {
    if s == "" then inQuotes else QuoteOpen(s[1..], if s[0] == '"' then !inQuotes else inQuotes)
  }

  lemma QuoteOpenStep(s: string, c: char, inQuotes: bool)
    ensures QuoteOpen(s + [c], inQuotes) == if c == '"' then !QuoteOpen(s, inQuotes) else QuoteOpen(s, inQuotes)
  {
    if s == "" {
      assert s + [c] == [c];
      assert [c][1..] == "";
    } else {
      QuoteOpenStep(s[1..], c, if s[0] == '"' then !inQuotes else inQuotes);
      assert (s + [c])[1..] == s[1..] + [c];
    }
  }

  function WordToken(raw: string): Token {
    if raw == "OR" then OrWord else Term(raw)
  }

  predicate StartsTerm(c: char) {
    !IsBoundary(c) && c != '-'
  }

  /** How much of a text its first token takes, counting one skipped space as a token of
      its own that produces nothing. */
  function FirstLength(s: string): (n: nat)
    requires s != ""
    ensures 1 <= n <= |s|
  {
    if StartsTerm(s[0]) then TermLength(s, false) else 1
  }

  function FirstTokens(s: string): seq<Token>
    requires s != ""
  {
    if IsSpace(s[0]) then []
    else if s[0] == '(' then [Open]
    else if s[0] == ')' then [Close]
    else if s[0] == '-' then [Minus]
    else [WordToken(s[..TermLength(s, false)])]
  }

  /** The one place the tokenizer leaves a hint: a term whose quote never closes. */
  function FirstHints(s: string): seq<Hint>
    requires s != ""
  {
    var raw := s[..FirstLength(s)];
    if StartsTerm(s[0]) && QuoteOpen(raw, false) then [Hint(Unbalanced, OpenQuote, Some(raw))] else []
  }

  /** The tokens of a text. */
  function Tokens(s: string): seq<Token>
    decreases |s|
  {
    if s == "" then [] else FirstTokens(s) + Tokens(s[FirstLength(s)..])
  }

  function QuoteHints(s: string): seq<Hint>
    decreases |s|
  {
    if s == "" then [] else FirstHints(s) + QuoteHints(s[FirstLength(s)..])
  }

  /** The inner loop of `_tokenize`: from the start of a term to its end. */
  method ScanTerm(text: string, start: nat) returns (end: nat, inQuotes: bool)
    requires start <= |text|
    ensures end == start + TermLength(text[start..], false)
    ensures inQuotes == QuoteOpen(text[start..end], false)
  {
    end, inQuotes := start, false;
    while end < |text|
      invariant start <= end <= |text|
      invariant TermLength(text[start..], false) == (end - start) + TermLength(text[end..], inQuotes)
      invariant QuoteOpen(text[start..end], false) == inQuotes
    {
      var c := text[end];
      if c != '"' && !inQuotes && IsBoundary(c) {
        return;
      }
      assert text[end..][1..] == text[end + 1..];
      assert text[start..end + 1] == text[start..end] + [c];
      QuoteOpenStep(text[start..end], c, false);
      if c == '"' {
        inQuotes := !inQuotes;
      }
      end := end + 1;
    }
  }

  /** One turn of the outer loop of `_tokenize`. */
  method NextToken(text: string, i: nat) returns (end: nat, tokens: seq<Token>, hints: seq<Hint>)
    requires i < |text|
    ensures end == i + FirstLength(text[i..])
    ensures tokens == FirstTokens(text[i..]) && hints == FirstHints(text[i..])
  {
    tokens, hints, end := [], [], i + 1;
    var c := text[i];
    if IsSpace(c) {
    } else if c == '(' {
      tokens := [Open];
    } else if c == ')' {
      tokens := [Close];
    } else if c == '-' {
      tokens := [Minus];
    } else {
      var inQuotes;
      end, inQuotes := ScanTerm(text, i);
      var raw := text[i..end];
      assert raw == text[i..][..TermLength(text[i..], false)];
      if inQuotes {
        hints := [Hint(Unbalanced, OpenQuote, Some(raw))];
      }
      tokens := [WordToken(raw)];
    }
  }

  lemma AppendAssociates<T>(a: seq<T>, b: seq<T>, c: seq<T>)
    ensures a + b + c == a + (b + c)
  {
  }

  /** `_tokenize`: an index moved over the text, a token at a time. */
  method Tokenize(text: string) returns (tokens: seq<Token>, hints: seq<Hint>)
    ensures tokens == Tokens(text) && hints == QuoteHints(text)
  {
    tokens, hints := [], [];
    var i := 0;
    while i < |text|
      invariant 0 <= i <= |text|
      invariant tokens + Tokens(text[i..]) == Tokens(text)
      invariant hints + QuoteHints(text[i..]) == QuoteHints(text)
    {
      var end, first, hint := NextToken(text, i);
      assert text[end..] == text[i..][end - i..];
      AppendAssociates(tokens, first, Tokens(text[end..]));
      AppendAssociates(hints, hint, QuoteHints(text[end..]));
      tokens, hints, i := tokens + first, hints + hint, end;
    }
  }

  // --------------------------------------------------------------- properties

  function Spelling(token: Token): string {
    match token
    case Term(raw) => raw
    case OrWord => "OR"
    case Minus => "-"
    case Open => "("
    case Close => ")"
  }

  function Spellings(tokens: seq<Token>): string {
    if tokens == [] then "" else Spelling(tokens[0]) + Spellings(tokens[1..])
  }

  /** A text without its unquoted white space. */
  function Squeezed(s: string, inQuotes: bool): string {
    if s == "" then ""
    else if s[0] == '"' then [s[0]] + Squeezed(s[1..], !inQuotes)
    else if !inQuotes && IsSpace(s[0]) then Squeezed(s[1..], inQuotes)
    else [s[0]] + Squeezed(s[1..], inQuotes)
  }

  function QuotesAfter(c: char, inQuotes: bool): bool {
    if c == '"' then !inQuotes else inQuotes
  }

  lemma TermStep(s: string, inQuotes: bool)
    ensures s == "" ==> Squeezed(s, inQuotes) == ""
    ensures TermLength(s, inQuotes) == 0 ==> Squeezed(s, inQuotes) == Squeezed(s, false)
    ensures s != "" && TermLength(s, inQuotes) > 0 ==>
              var quotes := QuotesAfter(s[0], inQuotes);
              && TermLength(s, inQuotes) == TermLength(s[1..], quotes) + 1
              && Squeezed(s, inQuotes) == [s[0]] + Squeezed(s[1..], quotes)
  {
  }

  lemma SlicesMove(s: string, n: nat, squeezed: string)
    requires 0 < n <= |s|
    ensures s[n..] == s[1..][n - 1..]
    ensures s[..n] + squeezed == [s[0]] + (s[1..][..n - 1] + squeezed)
  {
    assert s[..n] == [s[0]] + s[1..][..n - 1];
  }

  lemma {:induction false} TermSqueezed(s: string, inQuotes: bool)
    ensures
      var n := TermLength(s, inQuotes);
      Squeezed(s, inQuotes) == s[..n] + Squeezed(s[n..], false)
  {
    hide TermLength, Squeezed;
    var n := TermLength(s, inQuotes);
    TermStep(s, inQuotes);
    if s == "" || n == 0 {
      assert s[..n] == "" && s[n..] == s;
      TermStep(s, false);
    } else {
      TermSqueezed(s[1..], QuotesAfter(s[0], inQuotes));
      SlicesMove(s, n, Squeezed(s[n..], false));
    }
  }

  /** Nothing typed is lost or invented: the tokens spell the text, less its unquoted
      white space. */
  lemma {:induction false} TokensSpellText(s: string)
    ensures Spellings(Tokens(s)) == Squeezed(s, false)
    decreases |s|
  {
    if s != "" {
      var n, first := FirstLength(s), FirstTokens(s);
      var later := Tokens(s[n..]);
      TokensSpellText(s[n..]);
      if IsSpace(s[0]) {
        assert Tokens(s) == later;
      } else {
        assert (first + later)[0] == first[0] && (first + later)[1..] == later;
        if StartsTerm(s[0]) {
          TermSqueezed(s, false);
        }
      }
    }
  }

  /** No term is blank. */
  predicate NoBlankTerms(tokens: seq<Token>) {
    forall i | 0 <= i < |tokens| && tokens[i].Term? :: !Blank(tokens[i].raw)
  }

  lemma {:induction false} TokensNotBlank(s: string)
    ensures NoBlankTerms(Tokens(s))
    decreases |s|
  {
    if s != "" {
      if !StartsTerm(s[0]) {
        TokensNotBlank(s[1..]);
      } else {
        var n := TermLength(s, false);
        assert n >= 1;
        TokensNotBlank(s[n..]);
        assert s[..n][0] == s[0];
        var tokens := Tokens(s);
        assert tokens[1..] == Tokens(s[n..]);
        forall i | 0 <= i < |tokens| && tokens[i].Term? ensures !Blank(tokens[i].raw) {
          if i > 0 {
            assert tokens[i] == Tokens(s[n..])[i - 1];
          }
        }
      }
    }
  }

  /** A token that survives being written down: a term is one unbroken word that does not
      read as something else. */
  predicate Writable(token: Token) {
    token.Term? ==>
      && token.raw != "" && token.raw != "OR" && token.raw[0] != '-'
      && TermLength(token.raw, false) == |token.raw|
      && !QuoteOpen(token.raw, false)
  }

  /** The tokens written out, each followed by a space. */
  function Written(tokens: seq<Token>): (s: string) {
    if tokens == [] then "" else Spelling(tokens[0]) + " " + Written(tokens[1..])
  }

  lemma {:induction false} TermStopsAtSpace(raw: string, inQuotes: bool, rest: string)
    requires TermLength(raw, inQuotes) == |raw| && !QuoteOpen(raw, inQuotes)
    requires rest != "" && IsSpace(rest[0])
    ensures TermLength(raw + rest, inQuotes) == |raw|
  {
    if raw == "" {
      assert raw + rest == rest;
    } else {
      TermStopsAtSpace(raw[1..], if raw[0] == '"' then !inQuotes else inQuotes, rest);
      assert (raw + rest)[1..] == raw[1..] + rest;
    }
  }

  lemma FirstOfWritten(token: Token, rest: string)
    requires Writable(token) && rest != "" && IsSpace(rest[0])
    ensures
      var text := Spelling(token) + rest;
      FirstLength(text) == |Spelling(token)| && FirstTokens(text) == [token]
  {
    var word := Spelling(token);
    var text := word + rest;
    assert text[0] == word[0] && text[..|word|] == word;
    match token
    case Term(raw) => TermStopsAtSpace(raw, false, rest);
    case OrWord =>
      assert "OR"[1..] == "R" && "R"[1..] == "" && !QuoteOpen("R", false);
      TermStopsAtSpace("OR", false, rest);
    case _ =>
  }

  lemma SpaceSkipped(later: string)
    ensures Tokens(" " + later) == Tokens(later)
  {
    var text := " " + later;
    assert text[1..] == later;
    assert Tokens(text) == [] + Tokens(later);
  }

  /** Reading back what was written gives the same tokens. */
  lemma {:induction false} TokensOfWritten(tokens: seq<Token>)
    requires forall i | 0 <= i < |tokens| :: Writable(tokens[i])
    ensures Tokens(Written(tokens)) == tokens
  {
    hide FirstTokens, FirstLength;
    if tokens != [] {
      var word, later := Spelling(tokens[0]), Written(tokens[1..]);
      var rest := " " + later;
      TokensOfWritten(tokens[1..]);
      FirstOfWritten(tokens[0], rest);
      SpaceSkipped(later);
      assert Written(tokens) == word + rest;
      assert (word + rest)[|word|..] == rest;
    }
  }

  // --------------------------------------------------------- character by character

  const SPACES: string := [' ', '\t', '\n', 11 as char, 12 as char, '\r']

  /** Neither space, bracket nor quotation mark; a minus sign is not special inside a word. */
  predicate Ordinary(s: string) {
    forall i | 0 <= i < |s| :: s[i] !in SPACES && s[i] != '(' && s[i] != ')' && s[i] != '"'
  }

  /** Where a term must stop. */
  predicate Stops(rest: string) {
    rest == "" || rest[0] in SPACES || rest[0] == '(' || rest[0] == ')'
  }

  /** Space separates and is dropped; brackets and a minus sign where a term could start
      stand for themselves. */
  lemma SymbolTokens(c: char, rest: string)
    ensures c in SPACES ==> Tokens([c] + rest) == Tokens(rest)
    ensures c == '(' ==> Tokens([c] + rest) == [Open] + Tokens(rest)
    ensures c == ')' ==> Tokens([c] + rest) == [Close] + Tokens(rest)
    ensures c == '-' ==> Tokens([c] + rest) == [Minus] + Tokens(rest)
    ensures c in SPACES || c in {'(', ')', '-'} ==> QuoteHints([c] + rest) == QuoteHints(rest)
  {
    SpacesAre(c);
    var text := [c] + rest;
    assert text[1..] == rest;
    assert [] + Tokens(rest) == Tokens(rest) && [] + QuoteHints(rest) == QuoteHints(rest);
  }

  lemma {:induction false} OrdinaryLength(word: string, rest: string)
    requires Ordinary(word)
    ensures TermLength(word + rest, false) == |word| + TermLength(rest, false)
    ensures QuoteOpen(word + rest, false) == QuoteOpen(rest, false)
  {
    if word == "" {
      assert word + rest == rest;
    } else {
      SpacesAre(word[0]);
      OrdinaryLength(word[1..], rest);
      assert (word + rest)[1..] == word[1..] + rest;
    }
  }

  lemma {:induction false} PhraseLength(phrase: string, rest: string)
    requires forall i | 0 <= i < |phrase| :: phrase[i] != '"'
    ensures TermLength(phrase + ['"'] + rest, true) == |phrase| + 1 + TermLength(rest, false)
  {
    var text := phrase + ['"'] + rest;
    if phrase == "" {
      assert text[1..] == rest;
    } else {
      PhraseLength(phrase[1..], rest);
      assert text[1..] == phrase[1..] + ['"'] + rest;
    }
  }

  lemma StopsHere(rest: string)
    requires Stops(rest)
    ensures TermLength(rest, false) == 0
  {
    if rest != "" {
      SpacesAre(rest[0]);
    }
  }

  lemma TermFirst(term: string, rest: string)
    requires term != "" && StartsTerm(term[0]) && TermLength(term + rest, false) == |term|
    ensures Tokens(term + rest) == [WordToken(term)] + Tokens(rest)
    ensures !QuoteOpen(term, false) ==> QuoteHints(term + rest) == QuoteHints(rest)
  {
    var text := term + rest;
    assert text[0] == term[0] && text[..|term|] == term && text[|term|..] == rest;
    assert [] + QuoteHints(rest) == QuoteHints(rest);
  }

  /** A word goes on to the next space or bracket, minus signs and colons included; `OR` in
      capitals is the operator and no other spelling of it is. */
  lemma WordTokens(word: string, rest: string)
    requires word != "" && word[0] != '-' && Ordinary(word) && Stops(rest)
    ensures Tokens(word + rest) == [if word == ['O', 'R'] then OrWord else Term(word)] + Tokens(rest)
    ensures QuoteHints(word + rest) == QuoteHints(rest)
  {
    SpacesAre(word[0]);
    OrdinaryLength(word, rest);
    OrdinaryLength(word, "");
    assert word + "" == word;
    StopsHere(rest);
    TermFirst(word, rest);
  }

  /** And through a quoted phrase, whatever is in it, whether or not a word goes before. */
  lemma PhraseTokens(word: string, phrase: string, rest: string)
    requires (word != "" ==> word[0] != '-') && Ordinary(word) && Stops(rest)
    requires forall i | 0 <= i < |phrase| :: phrase[i] != '"'
    ensures
      var term := word + ['"'] + phrase + ['"'];
      Tokens(term + rest) == [Term(term)] + Tokens(rest) && QuoteHints(term + rest) == QuoteHints(rest)
  {
    hide Tokens, QuoteHints, QuoteOpen;
    PhraseCloses(word, phrase);
    var term := word + ['"'] + phrase + ['"'];
    var quoted := ['"'] + (phrase + ['"'] + rest);
    assert term + rest == word + quoted;
    assert quoted[1..] == phrase + ['"'] + rest;
    OrdinaryLength(word, quoted);
    PhraseLength(phrase, rest);
    StopsHere(rest);
    assert term[0] == if word != "" then word[0] else '"';
    SpacesAre(term[0]);
    assert term[|word|] == '"' && term != "OR";
    TermFirst(term, rest);
  }

  lemma PhraseCloses(word: string, phrase: string)
    requires Ordinary(word) && forall i | 0 <= i < |phrase| :: phrase[i] != '"'
    ensures !QuoteOpen(word + ['"'] + phrase + ['"'], false)
  {
    var quoted := ['"'] + phrase + ['"'];
    assert word + ['"'] + phrase + ['"'] == word + quoted && quoted[1..] == phrase + ['"'];
    OrdinaryLength(word, quoted);
    OpenLength(phrase);
    QuoteOpenStep(phrase, '"', true);
  }

  /** A quotation mark that never closes takes the rest of the text, and is told of. */
  lemma OpenPhraseTokens(word: string, phrase: string)
    requires (word != "" ==> word[0] != '-') && Ordinary(word)
    requires forall i | 0 <= i < |phrase| :: phrase[i] != '"'
    ensures
      var term := word + ['"'] + phrase;
      Tokens(term) == [Term(term)] && QuoteHints(term) == [Hint(Unbalanced, OpenQuote, Some(term))]
  {
    var term := word + ['"'] + phrase;
    var quoted := ['"'] + phrase;
    assert term == word + quoted && quoted[1..] == phrase;
    OrdinaryLength(word, quoted);
    OpenLength(phrase);
    assert term[0] == if word != "" then word[0] else '"';
    SpacesAre(term[0]);
    assert term[|word|] == '"' && term != "OR";
    assert term + "" == term && term[..|term|] == term && term[|term|..] == "";
    TermFirst(term, "");
    assert QuoteHints(term) == FirstHints(term) + QuoteHints("");
  }

  lemma {:induction false} OpenLength(phrase: string)
    requires forall i | 0 <= i < |phrase| :: phrase[i] != '"'
    ensures TermLength(phrase, true) == |phrase| && QuoteOpen(phrase, true)
  {
    if phrase != "" {
      OpenLength(phrase[1..]);
    }
  }

  // ---------------------------------------------------------------- preparing

  predicate IsControl(c: char) {
    c as int <= 8 || c as int == 11 || c as int == 12 || 14 <= c as int <= 31 || c as int == 127
  }

  function WithoutControls(s: string): (r: string)
    ensures |r| == |s|
    ensures forall i | 0 <= i < |s| :: r[i] == if IsControl(s[i]) then ' ' else s[i]
  {
    seq(|s|, i requires 0 <= i < |s| => if IsControl(s[i]) then ' ' else s[i])
  }

  /** `s.rsplit(" ", 1)[0]`: everything before the last space, or all of it. */
  function BeforeLastSpace(s: string): (r: string)
    ensures r <= s
    ensures r == s || (s[|r|] == ' ' && ' ' !in s[|r| + 1..])
  {
    if ' ' !in s then s else UpToLastSpace(s)
  }

  function UpToLastSpace(s: string): (r: string)
    requires ' ' in s
    ensures |r| < |s| && r == s[..|r|] && s[|r|] == ' ' && ' ' !in s[|r| + 1..]
  {
    if s[|s| - 1] == ' ' then s[..|s| - 1]
    else
      assert s == s[..|s| - 1] + [s[|s| - 1]];
      var r := UpToLastSpace(s[..|s| - 1]);
      assert s[|r| + 1..] == s[..|s| - 1][|r| + 1..] + [s[|s| - 1]];
      r
  }

  /** `_prepare`: the text to parse, and whether it had to be cut. */
  function Prepare(text: string): (r: (string, bool))
    ensures r.1 <==> |text| > MAX_QUERY_CHARS
    ensures |r.0| <= MAX_QUERY_CHARS
  {
    var clean := WithoutControls(text);
    if |clean| <= MAX_QUERY_CHARS then (clean, false)
    else
      var cut := clean[..MAX_QUERY_CHARS];
      var spaced := BeforeLastSpace(cut);
      (if spaced != "" then spaced else cut, true)
  }

  lemma PrepareKeeps(text: string)
    requires |text| <= MAX_QUERY_CHARS && forall i | 0 <= i < |text| :: !IsControl(text[i])
    ensures Prepare(text) == (text, false)
  {
    assert WithoutControls(text) == text;
  }

  /** Control characters become spaces, but for tabs and line ends. A text too long loses
      what is past the limit, and with it the word the limit falls in. */
  lemma PrepareIs(text: string, i: nat)
    requires i < |Prepare(text).0|
    ensures i < |text|
    ensures
      var code := text[i] as int;
      Prepare(text).0[i] == if (code < 32 && code !in {9, 10, 13}) || code == 127 then ' ' else text[i]
  {
  }

  lemma PrepareCuts(text: string)
    ensures |text| <= 4096 ==> |Prepare(text).0| == |text|
    ensures |text| > 4096 ==>
              var n := |Prepare(text).0|;
              && 0 < n <= 4096
              && (n < 4096 ==> WithoutControls(text)[n] == ' ')
              && forall i | n < i < 4096 || (n == 4096 && 0 < i < n) :: WithoutControls(text)[i] != ' '
  {
    if |text| > 4096 {
      var cut := WithoutControls(text)[..4096];
      var spaced := BeforeLastSpace(cut);
      forall i | |spaced| < i < 4096 ensures cut[i] != ' ' || spaced == cut {
        assert spaced != cut ==> cut[i] == cut[|spaced| + 1..][i - |spaced| - 1];
      }
    }
  }
}
