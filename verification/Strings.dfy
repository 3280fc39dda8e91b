/** The handling of text that the other modules share: spaces, capitals, quotation marks
    and colons. */
module Strings {
  import opened Wrappers

  predicate IsSpace(c: char) {
    c == ' ' || ('\t' <= c <= '\r')
  }

  function LowerChar(c: char): char {
    if 'A' <= c <= 'Z' then (c as int + 32) as char else c
  }

  function Lower(s: string): (r: string)
    ensures |r| == |s|
  {
    if s == "" then "" else [LowerChar(s[0])] + Lower(s[1..])
  }

  function TrimLeft(s: string): (r: string)
    ensures r == "" || !IsSpace(r[0])
    ensures r == "" <==> Blank(s)
  {
    if s == "" then "" else if IsSpace(s[0]) then TrimLeft(s[1..]) else s
  }

  function TrimRight(s: string): (r: string)
    ensures r == "" || !IsSpace(r[|r| - 1])
    ensures r <= s
    ensures forall i | |r| <= i < |s| :: IsSpace(s[i])
  {
    if s == "" then ""
    else if IsSpace(s[|s| - 1]) then TrimRight(s[..|s| - 1])
    else s
  }

  function Strip(s: string): (r: string)
    ensures r == "" <==> Blank(s)
    ensures r == "" || (!IsSpace(r[0]) && !IsSpace(r[|r| - 1]))
  {
    var left := TrimLeft(s);
    assert left != "" ==> TrimRight(left) != "";
    TrimRight(left)
  }

  predicate Blank(s: string) {
    forall i | 0 <= i < |s| :: IsSpace(s[i])
  }

  /** `_unquote`: one wrapping pair of quotes and the surrounding space. */
  function Unquote(value: string): (r: string)
    ensures !Blank(r) || r == ""
  {
    var head := if value != "" && value[0] == '"' then value[1..] else value;
    var body := if head != "" && head[|head| - 1] == '"' then head[..|head| - 1] else head;
    Strip(body)
  }

  /** `str.partition(":")`: the text on either side of the first colon. */
  function Partition(s: string): (r: Option<(string, string)>)
    ensures r.None? ==> ':' !in s
    ensures r.Some? ==> s == r.value.0 + ":" + r.value.1 && ':' !in r.value.0
  {
    if s == "" then None
    else if s[0] == ':' then Some(("", s[1..]))
    else
      match Partition(s[1..])
      case None => None
      case Some((name, value)) => Some(([s[0]] + name, value))
  }

  /** `[A-Za-z_]{1,20}`, the whole name. */
  predicate LooksLikeOperator(name: string) {
    1 <= |name| <= 20 &&
    forall i | 0 <= i < |name| ::
      'a' <= name[i] <= 'z' || 'A' <= name[i] <= 'Z' || name[i] == '_'
  }

  // ------------------------------------------------------------------ properties

  lemma SpacesAre(c: char)
    ensures IsSpace(c) <==> c in {' ', '\t', '\n', 11 as char, 12 as char, '\r'}
  {
  }

  /** One is the other's capital. */
  predicate CapitalOf(upper: char, lower: char) {
    exists i | 0 <= i < 26 :: upper == "ABCDEFGHIJKLMNOPQRSTUVWXYZ"[i] && lower == "abcdefghijklmnopqrstuvwxyz"[i]
  }

  predicate SameLetter(a: char, b: char) {
    a == b || CapitalOf(a, b) || CapitalOf(b, a)
  }

  /** The same text but for its capitals. */
  predicate SameLetters(a: string, b: string) {
    |a| == |b| && forall i | 0 <= i < |a| :: SameLetter(a[i], b[i])
  }

  lemma SameLettersStep(a: string, b: string)
    requires a != "" && b != ""
    ensures SameLetters(a, b) <==> SameLetter(a[0], b[0]) && SameLetters(a[1..], b[1..])
  {
    hide SameLetter;
    if |a| == |b| && SameLetter(a[0], b[0]) && SameLetters(a[1..], b[1..]) {
      forall i | 0 <= i < |a| ensures SameLetter(a[i], b[i]) {
        assert i > 0 ==> a[1..][i - 1] == a[i] && b[1..][i - 1] == b[i];
      }
    }
  }

  predicate NoCapitals(s: string) {
    forall i | 0 <= i < |s| :: s[i] !in "ABCDEFGHIJKLMNOPQRSTUVWXYZ"
  }

  lemma CapitalIs(upper: char, lower: char)
    ensures CapitalOf(upper, lower) <==> 'A' <= upper <= 'Z' && lower as int == upper as int + 32
    ensures upper in "ABCDEFGHIJKLMNOPQRSTUVWXYZ" <==> 'A' <= upper <= 'Z'
  {
    var uppers, lowers := "ABCDEFGHIJKLMNOPQRSTUVWXYZ", "abcdefghijklmnopqrstuvwxyz";
    assert forall i | 0 <= i < 26 :: uppers[i] as int == 'A' as int + i && lowers[i] as int == 'a' as int + i;
    if 'A' <= upper <= 'Z' {
      assert upper == uppers[upper as int - 'A' as int];
    }
  }

  lemma LowerCharSame(a: char, b: char)
    ensures LowerChar(a) == LowerChar(b) <==> SameLetter(a, b)
    ensures LowerChar(a) !in "ABCDEFGHIJKLMNOPQRSTUVWXYZ"
  {
    CapitalIs(a, b);
    CapitalIs(b, a);
    CapitalIs(LowerChar(a), b);
  }

  /** Lower-casing tells apart exactly what differs in more than its capitals, and leaves
      none. */
  lemma {:induction false} LowerSame(a: string, b: string)
    ensures Lower(a) == Lower(b) <==> SameLetters(a, b)
    ensures NoCapitals(Lower(a)) && SameLetters(a, Lower(a))
  {
    LowerAt(a);
    LowerAt(b);
    hide Lower;
    if SameLetters(a, b) {
      forall i | 0 <= i < |a| ensures Lower(a)[i] == Lower(b)[i] {
        LowerCharSame(a[i], b[i]);
      }
    }
    if Lower(a) == Lower(b) {
      forall i | 0 <= i < |a| ensures SameLetter(a[i], b[i]) {
        assert Lower(a)[i] == Lower(b)[i];
        LowerCharSame(a[i], b[i]);
      }
    }
    forall i | 0 <= i < |a| ensures Lower(a)[i] !in "ABCDEFGHIJKLMNOPQRSTUVWXYZ" && SameLetter(a[i], Lower(a)[i]) {
      LowerCharSame(a[i], Lower(a)[i]);
      LowerTwice(a[i]);
    }
  }

  lemma LowerTwice(c: char)
    ensures LowerChar(LowerChar(c)) == LowerChar(c)
  {
  }

  lemma {:induction false} LowerAt(s: string)
    ensures forall i | 0 <= i < |s| :: Lower(s)[i] == LowerChar(s[i])
  {
    if s != "" {
      LowerAt(s[1..]);
      forall i | 0 <= i < |s| ensures Lower(s)[i] == LowerChar(s[i]) {
        assert i > 0 ==> Lower(s)[i] == Lower(s[1..])[i - 1] && s[i] == s[1..][i - 1];
      }
    }
  }

  /** A text without capitals is its own lower case. */
  lemma LowerOf(s: string)
    requires NoCapitals(s)
    ensures Lower(s) == s
  {
    LowerAt(s);
    hide Lower;
    forall i | 0 <= i < |s| ensures Lower(s)[i] == s[i] {
      CapitalIs(s[i], s[i]);
    }
  }

  /** Text that neither starts nor ends with a space. */
  predicate Trim(s: string) {
    s != "" && !IsSpace(s[0]) && !IsSpace(s[|s| - 1])
  }

  lemma {:induction false} TrimLeftIs(before: string, s: string)
    requires Blank(before) && s != "" && !IsSpace(s[0])
    ensures TrimLeft(before + s) == s
  {
    if before == "" {
      assert before + s == s;
    } else {
      var text := before + s;
      assert IsSpace(text[0]) && TrimLeft(text) == TrimLeft(text[1..]);
      assert Blank(before[1..]);
      hide TrimLeft, Blank;
      assert text[1..] == before[1..] + s;
      TrimLeftIs(before[1..], s);
    }
  }

  lemma {:induction false} TrimRightIs(s: string, after: string)
    requires Blank(after) && s != "" && !IsSpace(s[|s| - 1])
    ensures TrimRight(s + after) == s
    decreases |after|
  {
    if after == "" {
      assert s + after == s;
    } else {
      TrimRightIs(s, after[..|after| - 1]);
      assert (s + after)[..|s + after| - 1] == s + after[..|after| - 1];
    }
  }

  /** Stripping takes off the space at both ends and nothing else. */
  lemma StripIs(before: string, s: string, after: string)
    requires Blank(before) && Trim(s) && Blank(after)
    ensures Strip(before + s + after) == s
  {
    TrimLeftIs(before, s + after);
    assert before + s + after == before + (s + after);
    TrimRightIs(s, after);
  }

  lemma StripTrim(s: string)
    requires Trim(s)
    ensures Strip(s) == s
  {
    StripIs("", s, "");
    assert "" + s + "" == s;
  }

  function Quote(there: bool): string {
    if there then "\"" else ""
  }

  lemma UnquoteBody(opening: bool, body: string, closing: bool)
    requires body != "" && (!opening ==> body[0] != '"') && (!closing ==> body[|body| - 1] != '"')
    ensures Unquote(Quote(opening) + body + Quote(closing)) == Strip(body)
  {
    hide Strip;
    var typed := Quote(opening) + body + Quote(closing);
    var head := if typed[0] == '"' then typed[1..] else typed;
    assert head == body + Quote(closing) by {
      if opening {
        assert typed == "\"" + (body + Quote(closing));
      } else {
        assert typed == body + Quote(closing) && typed[0] == body[0];
      }
    }
    if closing {
      assert head[..|head| - 1] == body;
    } else {
      assert head == body;
    }
  }

  /** One quotation mark at either end, and the space inside it, is not part of the value:
      what is left otherwise is the value itself, quotation marks and all. */
  lemma UnquoteIs(opening: bool, before: string, value: string, after: string, closing: bool)
    requires Blank(before) && Trim(value) && Blank(after)
    requires !opening ==> (before + value)[0] != '"'
    requires !closing ==> (value + after)[|value + after| - 1] != '"'
    ensures Unquote(Quote(opening) + (before + value + after) + Quote(closing)) == value
  {
    var body := before + value + after;
    assert body[0] == (before + value)[0];
    assert body == before + (value + after) && body[|body| - 1] == (value + after)[|value + after| - 1];
    hide Unquote, Strip, Blank;
    UnquoteBody(opening, body, closing);
    StripIs(before, value, after);
  }

  /** And a value that is nothing but space and a quotation mark at either end is empty. */
  lemma UnquoteNothing(opening: bool, blank: string, closing: bool)
    requires Blank(blank)
    ensures Unquote(Quote(opening) + blank + Quote(closing)) == ""
  {
    var end := Quote(closing);
    var typed := Quote(opening) + blank + end;
    assert typed == Quote(opening) + (blank + end);
    if typed != "" {
      var head := if typed[0] == '"' then typed[1..] else typed;
      assert opening ==> head == blank + end;
      assert Blank(if head != "" && head[|head| - 1] == '"' then head[..|head| - 1] else head);
    }
  }

  lemma {:induction false} PartitionIs(name: string, value: string)
    requires ':' !in name
    ensures Partition(name + ":" + value) == Some((name, value))
  {
    if name == "" {
      assert name + ":" + value == [':'] + value;
    } else {
      PartitionIs(name[1..], value);
      assert (name + ":" + value)[1..] == name[1..] + ":" + value;
      assert name == [name[0]] + name[1..] && name[0] in name;
    }
  }
}
