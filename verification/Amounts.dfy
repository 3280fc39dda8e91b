/** Dates, ages and sizes as they are typed after `before:`, `older_than:` and `larger:`. */
module Amounts {
  import opened Wrappers
  import opened Strings
  import opened Calendar

  const DIGITS: string := "0123456789"

  predicate IsDigit(c: char) {
    '0' <= c <= '9'
  }

  predicate AllDigits(s: string) {
    forall i | 0 <= i < |s| :: IsDigit(s[i])
  }

  /** How many digits a text starts with. */
  function Run(s: string): (n: nat)
    ensures n <= |s| && AllDigits(s[..n])
    ensures n < |s| ==> !IsDigit(s[n])
  {
    if s == "" || !IsDigit(s[0]) then 0
    else
      var n := 1 + Run(s[1..]);
      assert s[..n] == [s[0]] + s[1..][..n - 1];
      n
  }

  function Number(digits: string): nat
    requires AllDigits(digits)
  {
    if digits == "" then 0
    else 10 * Number(digits[..|digits| - 1]) + (digits[|digits| - 1] as int - '0' as int)
  }

  /** A number of at most `most` digits, space, and the rest. */
  function NumberAndRest(s: string, most: nat): Option<(nat, string)> {
    var n := Run(s);
    if 1 <= n <= most then Some((Number(s[..n]), TrimLeft(s[n..]))) else None
  }

  /** `(\d{1,12})\s*([kmg]?)b?`, whatever the capitals, in bytes. */
  function ReadSize(value: string): Option<nat> {
    match NumberAndRest(value, 12)
    case None => None
    case Some((n, rest)) =>
      match SizeUnit(Lower(rest))
      case None => None
      case Some(bytes) => Some(n * bytes)
  }

  function SizeUnit(unit: string): Option<nat> {
    if unit == "" || unit == "b" then Some(1)
    else if unit == "k" || unit == "kb" then Some(1024)
    else if unit == "m" || unit == "mb" then Some(1024 * 1024)
    else if unit == "g" || unit == "gb" then Some(1024 * 1024 * 1024)
    else None
  }

  /** `(\d{1,6})\s*([dwmy])`. */
  function ReadAge(value: string): Option<(nat, Unit)> {
    match NumberAndRest(value, 6)
    case None => None
    case Some((n, rest)) =>
      match AgeUnit(Lower(rest))
      case None => None
      case Some(unit) => Some((n, unit))
  }

  function AgeUnit(unit: string): Option<Unit> {
    if unit == "d" then Some(Days)
    else if unit == "w" then Some(Weeks)
    else if unit == "m" then Some(Months)
    else if unit == "y" then Some(Years)
    else None
  }

  /** Three runs of digits and the two characters between them. */
  datatype Parts = Parts(first: string, sep: char, second: string, sep': char, third: string)

  function Split(s: string): (p: Option<Parts>)
    ensures p.Some? ==> AllDigits(p.value.first) && AllDigits(p.value.second) && AllDigits(p.value.third)
  {
    var a := Run(s);
    if a >= |s| then None
    else
      var s2 := s[a + 1..];
      var b := Run(s2);
      if b >= |s2| then None
      else
        var s3 := s2[b + 1..];
        if Run(s3) == |s3| then Some(Parts(s[..a], s[a], s2[..b], s2[b], s3)) else None
  }

  predicate Slash(c: char) {
    c == '/'
  }

  predicate SlashOrDash(c: char) {
    c == '/' || c == '-'
  }

  /** `_parse_date`: `YYYY-MM-DD`, with either separator, or `M/D/YYYY`, at midnight. */
  function ReadDate(value: string): Option<DateTime> {
    match Split(value)
    case None => None
    case Some(p) =>
      if |p.first| == 4 && SlashOrDash(p.sep) && 1 <= |p.second| <= 2 && SlashOrDash(p.sep') && 1 <= |p.third| <= 2 then
        Midnight(Number(p.first), Number(p.second), Number(p.third))
      else if 1 <= |p.first| <= 2 && Slash(p.sep) && 1 <= |p.second| <= 2 && Slash(p.sep') && |p.third| == 4 then
        Midnight(Number(p.third), Number(p.first), Number(p.second))
      else None
  }

  function Midnight(year: nat, month: nat, day: nat): Option<DateTime> {
    var when := Stamp(year, month, day, 0);
    if when.Valid() then Some(when) else None
  }

  // -------------------------------------------------------------------- numbers

  /** A number as it is written, with any zeros in front. */
  function Decimal(n: nat): (s: string)
    ensures s != "" && AllDigits(s)
  {
    if n < 10 then [DIGITS[n]] else Decimal(n / 10) + [DIGITS[n % 10]]
  }

  function Zeros(k: nat): (s: string)
    ensures |s| == k && AllDigits(s)
  {
    seq(k, _ => '0')
  }

  lemma {:induction false} NumberOfDecimal(k: nat, n: nat)
    ensures Number(Zeros(k) + Decimal(n)) == n
    decreases n
  {
    var s := Zeros(k) + Decimal(n);
    if n < 10 {
      NumberOfZeros(k);
      assert s[..|s| - 1] == Zeros(k);
    } else {
      NumberOfDecimal(k, n / 10);
      assert s[..|s| - 1] == Zeros(k) + Decimal(n / 10);
    }
  }

  lemma {:induction false} NumberOfZeros(k: nat)
    ensures Number(Zeros(k)) == 0
  {
    if k > 0 {
      NumberOfZeros(k - 1);
      assert Zeros(k)[..k - 1] == Zeros(k - 1);
    }
  }

  lemma RunIs(digits: string, rest: string)
    requires AllDigits(digits) && (rest != "" ==> !IsDigit(rest[0]))
    ensures Run(digits + rest) == |digits|
  {
    var s, n := digits + rest, Run(digits + rest);
    assert forall i | 0 <= i < |digits| :: s[i] == digits[i] && IsDigit(s[i]);
    assert forall i | 0 <= i < n :: s[..n][i] == s[i] && IsDigit(s[i]);
    assert rest != "" ==> s[|digits|] == rest[0];
  }

  /** A number as it can be typed: its digits, with zeros in front or not. */
  predicate Spells(digits: string, n: nat) {
    exists k: nat :: k <= |digits| && digits == Zeros(k) + Decimal(n)
  }

  lemma NumberSpelled(digits: string, n: nat)
    requires Spells(digits, n)
    ensures AllDigits(digits) && Number(digits) == n
  {
    var k: nat :| k <= |digits| && digits == Zeros(k) + Decimal(n);
    NumberOfDecimal(k, n);
  }

  /** And every run of digits spells some number. */
  lemma {:induction false} SpellsNumber(digits: string)
    requires AllDigits(digits) && digits != ""
    ensures Spells(digits, Number(digits))
  {
    var front, last := digits[..|digits| - 1], digits[|digits| - 1];
    assert digits == front + [last];
    DigitAt(last);
    if front == "" {
      assert digits == Zeros(0) + Decimal(Number(digits));
    } else {
      SpellsNumber(front);
      SpellsMore(front, Number(front), last);
    }
  }

  lemma SpellsMore(front: string, n: nat, last: char)
    requires Spells(front, n) && IsDigit(last)
    ensures Spells(front + [last], 10 * n + (last as int - '0' as int))
  {
    var k: nat :| k <= |front| && front == Zeros(k) + Decimal(n);
    var more := 10 * n + (last as int - '0' as int);
    DigitAt(last);
    if n == 0 {
      assert Zeros(k + 1) == Zeros(k) + "0";
      assert front + [last] == Zeros(k + 1) + Decimal(more);
    } else {
      assert more / 10 == n && more % 10 == last as int - '0' as int;
      assert front + [last] == Zeros(k) + Decimal(more);
    }
  }

  lemma DigitAt(c: char)
    requires IsDigit(c)
    ensures DIGITS[c as int - '0' as int] == c
  {
  }

  // ------------------------------------------------------------------- amounts

  lemma NumberAndRestIs(digits: string, blank: string, rest: string, most: nat)
    requires AllDigits(digits) && 1 <= |digits| <= most && Blank(blank)
    requires rest == "" || (!IsSpace(rest[0]) && !IsDigit(rest[0]))
    ensures NumberAndRest(digits + blank + rest, most) == Some((Number(digits), rest))
  {
    var s := digits + blank + rest;
    assert s == digits + (blank + rest);
    assert blank != "" ==> (blank + rest)[0] == blank[0];
    RunIs(digits, blank + rest);
    assert s[..|digits|] == digits && s[|digits|..] == blank + rest;
    if rest != "" {
      TrimLeftIs(blank, rest);
    } else {
      assert blank + rest == blank;
    }
  }

  lemma NumberAndRestShape(s: string, most: nat) returns (digits: string, blank: string)
    requires NumberAndRest(s, most).Some?
    ensures
      var (n, rest) := NumberAndRest(s, most).value;
      s == digits + blank + rest && Blank(blank) && Spells(digits, n) && 1 <= |digits| <= most
  {
    hide Blank, Spells, TrimLeft, Run, Number;
    var n := Run(s);
    digits := s[..n];
    SpellsNumber(digits);
    blank := TrimmedBlank(s[n..]);
  }

  lemma {:induction false} TrimmedBlank(s: string) returns (blank: string)
    ensures Blank(blank) && s == blank + TrimLeft(s)
  {
    if s == "" || !IsSpace(s[0]) {
      blank := "";
      assert blank + s == s;
    } else {
      hide Blank;
      var rest := TrimmedBlank(s[1..]);
      var trimmed := TrimLeft(s);
      assert trimmed == TrimLeft(s[1..]);
      hide TrimLeft;
      BlankMore(s[0], rest);
      blank := [s[0]] + rest;
      Moved(s, rest, trimmed);
    }
  }

  lemma Moved(s: string, front: string, back: string)
    requires s != "" && s[1..] == front + back
    ensures s == [s[0]] + front + back
  {
  }

  lemma BlankMore(c: char, s: string)
    requires IsSpace(c) && Blank(s)
    ensures Blank([c] + s)
  {
  }

  function Power1024(p: nat): nat {
    if p == 0 then 1 else 1024 * Power1024(p - 1)
  }

  const SIZE_UNITS: seq<string> := ["", "k", "m", "g"]

  function SizeWord(p: nat, b: bool): string
    requires p < 4
  {
    SIZE_UNITS[p] + if b then "b" else ""
  }

  lemma SizeUnitIs(p: nat, b: bool)
    requires p < 4
    ensures SizeUnit(SizeWord(p, b)) == Some(Power1024(p))
    ensures |SizeWord(p, b)| <= 2 && forall i | 0 <= i < |SizeWord(p, b)| :: 'a' <= SizeWord(p, b)[i] <= 'z'
  {
    Powers();
    hide Power1024;
    hide SizeUnit;
    SizeWords(p);
    SizeUnits();
  }

  lemma SizeUnits()
    ensures SizeUnit("") == SizeUnit("b") == Some(1) && SizeUnit("k") == SizeUnit("kb") == Some(1024)
    ensures SizeUnit("m") == SizeUnit("mb") == Some(1024 * 1024) && SizeUnit("g") == SizeUnit("gb") == Some(1024 * 1024 * 1024)
  {
  }

  lemma SizeWords(p: nat)
    requires p < 4
    ensures p == 0 ==> SizeWord(p, false) == "" && SizeWord(p, true) == "b"
    ensures p == 1 ==> SizeWord(p, false) == "k" && SizeWord(p, true) == "kb"
    ensures p == 2 ==> SizeWord(p, false) == "m" && SizeWord(p, true) == "mb"
    ensures p == 3 ==> SizeWord(p, false) == "g" && SizeWord(p, true) == "gb"
  {
  }

  lemma Powers()
    ensures Power1024(0) == 1 && Power1024(1) == 1024 && Power1024(2) == 1024 * 1024 && Power1024(3) == 1024 * 1024 * 1024
  {
    assert Power1024(2) == 1024 * Power1024(1);
  }

  lemma SizeUnitShape(unit: string) returns (p: nat, b: bool)
    requires SizeUnit(unit).Some?
    ensures p < 4 && unit == SizeWord(p, b) && SizeUnit(unit).value == Power1024(p)
  {
    b := unit != "" && unit[|unit| - 1] == 'b';
    p := if unit == "" || unit == "b" then 0 else if unit[0] == 'k' then 1 else if unit[0] == 'm' then 2 else 3;
    SizeUnitIs(p, b);
  }

  /** Kilo, mega and giga are powers of 1024, and the `b` makes no difference. */
  lemma SizeReads(digits: string, n: nat, blank: string, unit: string, p: nat, b: bool)
    requires Spells(digits, n) && |digits| <= 12 && Blank(blank)
    requires p < 4 && SameLetters(unit, SizeWord(p, b))
    ensures ReadSize(digits + blank + unit) == Some(n * Power1024(p))
  {
    hide SizeWord, SizeUnit, SameLetters, Number, Power1024, NumberAndRest, Lower, Blank;
    SpellsSome(digits, n);
    SizeUnitIs(p, b);
    UnitWord(unit, SizeWord(p, b));
    NumberAndRestIs(digits, blank, unit, 12);
  }

  lemma SpellsSome(digits: string, n: nat)
    requires Spells(digits, n)
    ensures AllDigits(digits) && digits != "" && Number(digits) == n
  {
    NumberSpelled(digits, n);
  }

  /** And there is no other way to write a size. */
  lemma SizeShape(value: string) returns (digits: string, n: nat, blank: string, unit: string, p: nat, b: bool)
    requires ReadSize(value).Some?
    ensures value == digits + blank + unit && Spells(digits, n) && |digits| <= 12 && Blank(blank)
    ensures p < 4 && SameLetters(unit, SizeWord(p, b))
  {
    hide SizeWord, SizeUnit, SameLetters, Lower, Blank, NumberAndRest;
    digits, blank := NumberAndRestShape(value, 12);
    n, unit := NumberAndRest(value, 12).value.0, NumberAndRest(value, 12).value.1;
    p, b := SizeUnitShape(Lower(unit));
    LowerSame(unit, unit);
  }

  /** Days, weeks, months and years. */
  const AGE_UNITS: seq<(string, Unit)> := [("d", Days), ("w", Weeks), ("m", Months), ("y", Years)]

  lemma AgeReads(digits: string, n: nat, blank: string, unit: string, p: nat)
    requires Spells(digits, n) && |digits| <= 6 && Blank(blank)
    requires p < 4 && SameLetters(unit, AGE_UNITS[p].0)
    ensures ReadAge(digits + blank + unit) == Some((n, AGE_UNITS[p].1))
  {
    hide SameLetters, Number, NumberAndRest, Lower, Blank;
    SpellsSome(digits, n);
    UnitWord(unit, AGE_UNITS[p].0);
    NumberAndRestIs(digits, blank, unit, 6);
  }

  lemma AgeShape(value: string) returns (digits: string, n: nat, blank: string, unit: string, p: nat)
    requires ReadAge(value).Some?
    ensures value == digits + blank + unit && Spells(digits, n) && |digits| <= 6 && Blank(blank)
    ensures p < 4 && SameLetters(unit, AGE_UNITS[p].0)
  {
    hide SameLetters, Lower, Blank, NumberAndRest;
    digits, blank := NumberAndRestShape(value, 6);
    n, unit := NumberAndRest(value, 6).value.0, NumberAndRest(value, 6).value.1;
    var lower := Lower(unit);
    p := if lower == "d" then 0 else if lower == "w" then 1 else if lower == "m" then 2 else 3;
    LowerSame(unit, unit);
  }

  /** A unit is letters, whatever their capitals. */
  lemma UnitWord(unit: string, word: string)
    requires SameLetters(unit, word) && |word| <= 2 && forall i | 0 <= i < |word| :: 'a' <= word[i] <= 'z'
    ensures Lower(unit) == word && |unit| == |word|
    ensures unit == "" || (!IsSpace(unit[0]) && !IsDigit(unit[0]))
  {
    LowerSame(unit, word);
    NoCapitalsIn(word);
    LowerOf(word);
    if unit != "" {
      CapitalIs(unit[0], word[0]);
      CapitalIs(word[0], unit[0]);
    }
  }

  lemma NoCapitalsIn(word: string)
    requires forall i | 0 <= i < |word| :: !('A' <= word[i] <= 'Z')
    ensures NoCapitals(word)
  {
    forall i | 0 <= i < |word| ensures word[i] !in "ABCDEFGHIJKLMNOPQRSTUVWXYZ" {
      CapitalIs(word[i], word[i]);
    }
  }

  // --------------------------------------------------------------------- dates

  /** A number of so many digits. */
  predicate Typed(digits: string, n: nat, least: nat, most: nat) {
    Spells(digits, n) && least <= |digits| <= most
  }

  lemma SplitIs(p: Parts)
    requires AllDigits(p.first) && AllDigits(p.second) && AllDigits(p.third) && !IsDigit(p.sep) && !IsDigit(p.sep')
    ensures Split(p.first + [p.sep] + p.second + [p.sep'] + p.third) == Some(p)
  {
    var s3 := p.third;
    var s2 := p.second + ([p.sep'] + s3);
    var s := p.first + ([p.sep] + s2);
    assert p.first + [p.sep] + p.second + [p.sep'] + p.third == s;
    RunIs(p.first, [p.sep] + s2);
    RunIs(p.second, [p.sep'] + s3);
    RunIs(p.third, "");
    assert s3 + "" == s3;
    Halves(p.first, p.sep, s2);
    Halves(p.second, p.sep', s3);
  }

  lemma Halves(a: string, c: char, b: string)
    ensures var s := a + ([c] + b); s[..|a|] == a && s[|a|] == c && s[|a| + 1..] == b
  {
  }

  lemma SplitShape(s: string)
    requires Split(s).Some?
    ensures var p := Split(s).value; s == p.first + [p.sep] + p.second + [p.sep'] + p.third
  {
  }

  /** Year, month, day, each with or without zeros but the year of four digits. */
  lemma IsoDateReads(year: string, y: nat, sep: char, month: string, m: nat, sep': char, day: string, d: nat)
    requires Typed(year, y, 4, 4) && Typed(month, m, 1, 2) && Typed(day, d, 1, 2)
    requires sep in {'/', '-'} && sep' in {'/', '-'}
    ensures ReadDate(year + [sep] + month + [sep'] + day) == if Stamp(y, m, d, 0).Valid() then Some(Stamp(y, m, d, 0)) else None
  {
    hide Split, Number;
    NumberSpelled(year, y);
    NumberSpelled(month, m);
    NumberSpelled(day, d);
    SplitIs(Parts(year, sep, month, sep', day));
  }

  /** Month, day, year. */
  lemma UsDateReads(month: string, m: nat, day: string, d: nat, year: string, y: nat)
    requires Typed(month, m, 1, 2) && Typed(day, d, 1, 2) && Typed(year, y, 4, 4)
    ensures ReadDate(month + "/" + day + "/" + year) == if Stamp(y, m, d, 0).Valid() then Some(Stamp(y, m, d, 0)) else None
  {
    NumberSpelled(year, y);
    NumberSpelled(month, m);
    NumberSpelled(day, d);
    SplitIs(Parts(month, '/', day, '/', year));
  }

  /** And there is no other way to write a date. */
  lemma DateShape(value: string) returns (a: string, sep: char, b: string, sep': char, c: string)
    requires ReadDate(value).Some?
    ensures value == a + [sep] + b + [sep'] + c
    ensures
      var when := ReadDate(value).value;
      || (Typed(a, when.year, 4, 4) && Typed(b, when.month, 1, 2) && Typed(c, when.day, 1, 2) && sep in {'/', '-'} && sep' in {'/', '-'})
      || (Typed(a, when.month, 1, 2) && Typed(b, when.day, 1, 2) && Typed(c, when.year, 4, 4) && sep == sep' == '/')
  {
    hide Split, Spells;
    SplitShape(value);
    var p := Split(value).value;
    a, sep, b, sep', c := p.first, p.sep, p.second, p.sep', p.third;
    SpellsNumber(a);
    SpellsNumber(b);
    SpellsNumber(c);
  }
}
