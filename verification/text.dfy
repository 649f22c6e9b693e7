/** The Python `str` operations the modelled code relies on, over `string`
    (a sequence of Unicode scalar values, as a Python `str` is a sequence of
    code points): `isspace`, `lower`, `in`, `startswith`, `split()`,
    `split(sep)`, `strip()`, `join`, `int(...)`, `str(n)` and `<`.
 */
module Text {
  import opened Wrappers

  /** `c.isspace()`: the separators of `split()` and the characters `strip()` removes. */
  predicate IsSpace(c: char) {
    || c == ' ' || c == '\t' || c == '\n' || c == '\r'
    || c == '\U{0B}' || c == '\U{0C}'
    || ('\U{1C}' <= c <= '\U{1F}')
    || c == '\U{85}' || c == '\U{A0}' || c == '\U{1680}'
    || ('\U{2000}' <= c <= '\U{200A}')
    || c == '\U{2028}' || c == '\U{2029}' || c == '\U{202F}' || c == '\U{205F}' || c == '\U{3000}'
  }

  predicate IsDigit(c: char) {
    '0' <= c <= '9'
  }

  /** A character the regular-expression class `\w` matches (ASCII letters, digits, `_`). */
  predicate IsWordChar(c: char) {
    ('a' <= c <= 'z') || ('A' <= c <= 'Z') || IsDigit(c) || c == '_'
  }

  // ---------------------------------------------------------------------------
  // lower()

  function LowerChar(c: char): char {
    if 'A' <= c <= 'Z' then (c as int + 32) as char else c
  }

  /** `s.lower()`, on the ASCII letters. */
  function Lower(s: string): string {
    seq(|s|, i requires 0 <= i < |s| => LowerChar(s[i]))
  }

  lemma LowerAppend(a: string, b: string)
    ensures Lower(a + b) == Lower(a) + Lower(b)
  {
  }

  // ---------------------------------------------------------------------------
  // `needle in hay` and startswith

  /** Python's `needle in hay` on strings: a contiguous occurrence. */
  predicate Contains(hay: string, needle: string) {
    exists i | 0 <= i <= |hay| - |needle| :: OccursAt(hay, needle, i)
  }

  /** `needle` occurs in `hay` starting at index `i`. */
  predicate OccursAt(hay: string, needle: string, i: int) {
    0 <= i <= |hay| - |needle| && hay[i..i + |needle|] == needle
  }

  /** `s.startswith(prefix)`. */
  predicate StartsWith(s: string, prefix: string) {
    |prefix| <= |s| && s[..|prefix|] == prefix
  }

  /** Each of four strings occurs in a string built by interleaving them with four others. */
  lemma ContainsEachOfFour(a: string, x1: string, b: string, x2: string,
                           c: string, x3: string, d: string, x4: string)
    ensures var p := a + x1 + b + x2 + c + x3 + d + x4;
            Contains(p, x1) && Contains(p, x2) && Contains(p, x3) && Contains(p, x4)
  {
    var p := a + x1 + b + x2 + c + x3 + d + x4;
    assert OccursAt(p, x1, |a|);
    assert OccursAt(p, x2, |a + x1 + b|);
    assert OccursAt(p, x3, |a + x1 + b + x2 + c|);
    assert OccursAt(p, x4, |a + x1 + b + x2 + c + x3 + d|);
  }

  /** A text ending in `Labelled(title, content)` contains the title and the content. */
  lemma LabelledEmbeds(lead: string, title: string, content: string)
    ensures Contains(lead + Labelled(title, content), title)
    ensures Contains(lead + Labelled(title, content), content)
  {
    var p := lead + Labelled(title, content);
    assert p == lead + "Title: " + title + "\nContent: " + content;
    assert OccursAt(p, title, |lead + "Title: "|);
    assert OccursAt(p, content, |lead + "Title: " + title + "\nContent: "|);
  }

  /** A string occurs in any string built around it. */
  lemma ContainsMiddle(a: string, x: string, b: string)
    ensures Contains(a + x + b, x)
  {
    var h := a + x + b;
    assert OccursAt(h, x, |a|);
  }

  /** Every string contains the empty string, so `"" in s` is always true. */
  lemma ContainsEmpty(s: string)
    ensures Contains(s, "")
  {
    assert OccursAt(s, "", 0);
  }

  // ---------------------------------------------------------------------------
  // split() and re.findall(r'\w+'): maximal runs of characters of one class

  datatype RunKind =
    | NonSpace   // `str.split()` with no argument
    | WordChar   // `re.findall(r'\w+', s)`

  predicate InRun(c: char, k: RunKind) {
    match k
    case NonSpace => !IsSpace(c)
    case WordChar => IsWordChar(c)
  }

  /** Length of the run of class `k` at the start of `s`. */
  function RunLen(s: string, k: RunKind): (n: nat)
    ensures n <= |s|
    ensures forall i :: 0 <= i < n ==> InRun(s[i], k)
    ensures n < |s| ==> !InRun(s[n], k)
  {
    if |s| == 0 || !InRun(s[0], k) then 0 else 1 + RunLen(s[1..], k)
  }

  /** The maximal runs of class-`k` characters of `s`, left to right. */
  function Runs(s: string, k: RunKind): (ws: seq<string>)
    ensures forall j :: 0 <= j < |ws| ==> |ws[j]| > 0
    ensures forall j, i :: 0 <= j < |ws| && 0 <= i < |ws[j]| ==> InRun(ws[j][i], k)
    decreases |s|
  {
    if |s| == 0 then []
    else if !InRun(s[0], k) then Runs(s[1..], k)
    else
      var n := RunLen(s, k);
      [s[..n]] + Runs(s[n..], k)
  }

  /** `s.split()`: the whitespace-separated tokens. */
  function Words(s: string): seq<string> {
    Runs(s, NonSpace)
  }

  predicate AllInRun(w: string, k: RunKind) {
    forall i :: 0 <= i < |w| ==> InRun(w[i], k)
  }

  lemma {:induction false} RunLenOfPrefix(a: string, b: string, k: RunKind)
    requires AllInRun(a, k)
    requires |b| == 0 || !InRun(b[0], k)
    ensures RunLen(a + b, k) == |a|
    decreases |a|
  {
    if |a| == 0 {
      assert a + b == b;
    } else {
      assert (a + b)[1..] == a[1..] + b;
      RunLenOfPrefix(a[1..], b, k);
    }
  }

  /** A non-empty run by itself is its own single token. */
  lemma RunsOfRun(w: string, k: RunKind)
    requires |w| > 0 && AllInRun(w, k)
    ensures Runs(w, k) == [w]
  {
    RunLenOfPrefix(w, "", k);
    assert w + "" == w;
    assert w[|w|..] == "";
  }

  /** A run followed by a character outside the class is the first token. */
  lemma RunsAfterRun(w: string, t: string, k: RunKind)
    requires |w| > 0 && AllInRun(w, k)
    requires |t| == 0 || !InRun(t[0], k)
    ensures Runs(w + t, k) == [w] + Runs(t, k)
  {
    var s := w + t;
    RunLenOfPrefix(w, t, k);
    assert s[..|w|] == w && s[|w|..] == t;
  }

  /** Cutting a string at a separator character splits its runs there:
      `(a + c + b).split() == a.split() + b.split()` when `c` is whitespace. */
  lemma {:induction false} RunsSeparated(a: string, c: char, b: string, k: RunKind)
    requires !InRun(c, k)
    ensures Runs(a + [c] + b, k) == Runs(a, k) + Runs(b, k)
    decreases |a|
  {
    if |a| == 0 {
      var s := a + [c] + b;
      assert s == [c] + b;
      assert s[1..] == b;
    } else if !InRun(a[0], k) {
      RunsSeparated(a[1..], c, b, k);
      RunsSeparatedSkip(a, c, b, k);
    } else {
      var n := RunLen(a, k);
      if n < |a| {
        RunsSeparated(a[n..], c, b, k);
        RunsSeparatedTake(a, c, b, k);
      } else {
        RunsSeparatedWhole(a, c, b, k);
      }
    }
  }

  /** The step of `RunsSeparated` past a leading separator of `a`. */
  lemma RunsSeparatedSkip(a: string, c: char, b: string, k: RunKind)
    requires |a| > 0 && !InRun(a[0], k)
    requires Runs(a[1..] + [c] + b, k) == Runs(a[1..], k) + Runs(b, k)
    ensures Runs(a + [c] + b, k) == Runs(a, k) + Runs(b, k)
  {
    assert (a + [c] + b)[1..] == a[1..] + [c] + b;
  }

  /** The step of `RunsSeparated` past a leading run of `a` that stops inside `a`. */
  lemma RunsSeparatedTake(a: string, c: char, b: string, k: RunKind)
    requires |a| > 0 && InRun(a[0], k) && !InRun(c, k) && RunLen(a, k) < |a|
    requires Runs(a[RunLen(a, k)..] + [c] + b, k) == Runs(a[RunLen(a, k)..], k) + Runs(b, k)
    ensures Runs(a + [c] + b, k) == Runs(a, k) + Runs(b, k)
  {
    var n := RunLen(a, k);
    var w, t := a[..n], a[n..] + [c] + b;
    assert a == w + a[n..];
    assert a + [c] + b == w + t;
    RunsAfterRun(w, t, k);
    RunsAfterRun(w, a[n..], k);
  }

  /** The last step of `RunsSeparated`: `a` is one run. */
  lemma RunsSeparatedWhole(a: string, c: char, b: string, k: RunKind)
    requires |a| > 0 && InRun(a[0], k) && !InRun(c, k) && RunLen(a, k) == |a|
    ensures Runs(a + [c] + b, k) == Runs(a, k) + Runs(b, k)
  {
    var t := [c] + b;
    assert a + [c] + b == a + t;
    RunsAfterRun(a, t, k);
    assert t[1..] == b;
    RunsOfRun(a, k);
  }

  /** A whitespace character between a token and the rest peels the token off:
      `(w + c + rest).split() == [w] + rest.split()`. */
  lemma WordsCons(w: string, c: char, rest: string)
    requires |w| > 0 && AllInRun(w, NonSpace) && IsSpace(c)
    ensures Words(w + [c] + rest) == [w] + Words(rest)
  {
    RunsSeparated(w, c, rest, NonSpace);
    RunsOfRun(w, NonSpace);
  }

  /** Tokens joined by single spaces split back into the same tokens. */
  lemma {:induction false} WordsOfJoin(ws: seq<string>, c: char, rest: string)
    requires |ws| > 0
    requires forall i :: 0 <= i < |ws| ==> |ws[i]| > 0 && AllInRun(ws[i], NonSpace)
    requires IsSpace(c)
    ensures Words(Join(ws, " ") + [c] + rest) == ws + Words(rest)
  {
    if |ws| == 1 {
      WordsCons(ws[0], c, rest);
    } else {
      var tail := Join(ws[1..], " ") + [c] + rest;
      JoinThen(ws, [c] + rest);
      assert Join(ws, " ") + [c] + rest == Join(ws, " ") + ([c] + rest);
      assert tail == Join(ws[1..], " ") + ([c] + rest);
      WordsCons(ws[0], ' ', tail);
      WordsOfJoin(ws[1..], c, rest);
      assert ws == [ws[0]] + ws[1..];
    }
  }

  /** A joined list of two or more parts, followed by more text, is its first
      part, a space, and the join of the rest followed by that text. */
  lemma JoinThen(ws: seq<string>, after: string)
    requires |ws| >= 2
    ensures Join(ws, " ") + after == ws[0] + [' '] + (Join(ws[1..], " ") + after)
  {
    assert Join(ws, " ") == ws[0] + " " + Join(ws[1..], " ");
  }

  lemma LabelledSplit(title: string, content: string)
    ensures "Title: " + title + "\nContent: " + content
            == "Title:" + [' '] + (title + ['\n'] + ("Content:" + [' '] + content))
  {
    assert "Title: " == "Title:" + [' '];
    assert "\nContent: " == ['\n'] + "Content:" + [' '];
  }

  /** The two-line text both summarisation prompts end with. */
  function Labelled(title: string, content: string): string {
    "Title: " + title + "\nContent: " + content
  }

  /** The tokens of `Labelled(title, content)`: the two labels around the
      tokens of the title and of the content. */
  lemma LabelledWords(title: string, content: string)
    ensures Words(Labelled(title, content))
            == ["Title:"] + Words(title) + ["Content:"] + Words(content)
  {
    var tail := "Content:" + [' '] + content;
    LabelledSplit(title, content);
    WordsCons("Title:", ' ', title + ['\n'] + tail);
    RunsSeparated(title, '\n', tail, NonSpace);
    WordsCons("Content:", ' ', content);
  }

  // ---------------------------------------------------------------------------
  // strip()

  function StripLeft(s: string): (r: string)
    ensures |r| <= |s| && r == s[|s| - |r|..]
    ensures forall i :: 0 <= i < |s| - |r| ==> IsSpace(s[i])
    ensures |r| > 0 ==> !IsSpace(r[0])
  {
    if |s| > 0 && IsSpace(s[0]) then StripLeft(s[1..]) else s
  }

  function StripRight(s: string): (r: string)
    ensures |r| <= |s| && r == s[..|r|]
    ensures forall i :: |r| <= i < |s| ==> IsSpace(s[i])
    ensures |r| > 0 ==> !IsSpace(r[|r| - 1])
  {
    if |s| > 0 && IsSpace(s[|s| - 1]) then StripRight(s[..|s| - 1]) else s
  }

  /** `s.strip()`: the slice of `s` left once the leading and trailing
      whitespace is cut off; it neither starts nor ends with whitespace. */
  function Strip(s: string): (r: string)
    ensures exists k :: StrippedAt(s, r, k)
    ensures |r| > 0 ==> !IsSpace(r[0]) && !IsSpace(r[|r| - 1])
  {
    var l := StripLeft(s);
    var r := StripRight(l);
    var k := |s| - |l|;
    assert StrippedAt(s, r, k);
    r
  }

  /** `r` is the slice of `s` at `k` and everything around it is whitespace. */
  predicate StrippedAt(s: string, r: string, k: int) {
    && 0 <= k <= |s| - |r| && r == s[k..k + |r|]
    && (forall i :: 0 <= i < k ==> IsSpace(s[i]))
    && (forall i :: k + |r| <= i < |s| ==> IsSpace(s[i]))
  }

  /** A string without whitespace is left as it is by `strip()`. */
  lemma StripNoSpace(s: string)
    requires forall i :: 0 <= i < |s| ==> !IsSpace(s[i])
    ensures Strip(s) == s
  {
  }

  /** `strip()` is idempotent: a string that neither starts nor ends with
      whitespace is its own strip. */
  lemma StripOfStripped(s: string)
    ensures Strip(Strip(s)) == Strip(s)
  {
    var r := Strip(s);
    assert StripLeft(r) == r;
    assert StripRight(r) == r;
  }

  /** `strip()` only cuts, so it adds no character. */
  lemma StripKeepsAbsentChar(s: string, c: char)
    requires c !in s
    ensures c !in Strip(s)
  {
    var k :| StrippedAt(s, Strip(s), k);
  }

  // ---------------------------------------------------------------------------
  // split(sep) and sep.join(parts)

  /** `sep.join(parts)`. */
  function Join(parts: seq<string>, sep: string): string {
    if |parts| == 0 then ""
    else if |parts| == 1 then parts[0]
    else parts[0] + sep + Join(parts[1..], sep)
  }

  /** `s.split(sep)` for a one-character separator: never empty, no part holds
      the separator, and joining the parts back with it gives `s` again. */
  function SplitOn(s: string, sep: char): (parts: seq<string>)
    ensures |parts| >= 1
    ensures forall j :: 0 <= j < |parts| ==> sep !in parts[j]
    ensures Join(parts, [sep]) == s
  {
    if |s| == 0 then [""]
    else
      var rest := SplitOn(s[1..], sep);
      if s[0] == sep then
        assert s == [sep] + s[1..];
        [""] + rest
      else
        assert s == [s[0]] + s[1..];
        [[s[0]] + rest[0]] + rest[1..]
  }

  /** `s.split(sep)[0]` is the longest prefix of `s` before the first `sep`. */
  lemma {:induction false} SplitOnFirst(s: string, sep: char)
    ensures var p := SplitOn(s, sep)[0];
            |p| <= |s| && p == s[..|p|] && (|p| < |s| ==> s[|p|] == sep)
  {
    if |s| > 0 {
      SplitOnFirst(s[1..], sep);
    }
  }

  // ---------------------------------------------------------------------------
  // str(n) and int(s)

  function DigitChar(d: nat): (c: char)
    requires d < 10
    ensures IsDigit(c)
  {
    (48 + d) as char
  }

  function DigitValue(c: char): (d: nat)
    requires IsDigit(c)
    ensures d < 10
  {
    c as int - 48
  }

  predicate AllDigits(s: string) {
    forall i :: 0 <= i < |s| ==> IsDigit(s[i])
  }

  /** `str(n)` for `n >= 0`: decimal digits, most significant first, no leading zero. */
  function NatToString(n: nat): (r: string)
    ensures |r| >= 1 && AllDigits(r)
    ensures |r| > 1 ==> r[0] != '0'
  {
    if n < 10 then [DigitChar(n)] else NatToString(n / 10) + [DigitChar(n % 10)]
  }

  /** The number a string of decimal digits denotes. */
  function DigitsValue(s: string): nat
    requires AllDigits(s)
  {
    if |s| == 0 then 0 else DigitsValue(s[..|s| - 1]) * 10 + DigitValue(s[|s| - 1])
  }

  /** Reading back the decimal text of a number gives the number. */
  lemma {:induction false} DigitsValueOfNatToString(n: nat)
    ensures DigitsValue(NatToString(n)) == n
  {
    if n >= 10 {
      var s := NatToString(n);
      assert s[..|s| - 1] == NatToString(n / 10);
      DigitsValueOfNatToString(n / 10);
    }
  }

  /** Different numbers have different decimal texts. */
  lemma NatToStringInjective(a: nat, b: nat)
    ensures NatToString(a) == NatToString(b) ==> a == b
  {
    DigitsValueOfNatToString(a);
    DigitsValueOfNatToString(b);
  }

  /** `int(s)` on a `str`: surrounding whitespace, an optional sign, then at
      least one decimal digit; anything else raises ValueError (`None` here). */
  function ParseInt(s: string): Option<int> {
    ParseSigned(Strip(s))
  }

  /** An optional sign followed by at least one digit, and nothing else. */
  function ParseSigned(t: string): Option<int> {
    if |t| >= 2 && (t[0] == '+' || t[0] == '-') && AllDigits(t[1..]) then
      Some(if t[0] == '-' then -(DigitsValue(t[1..]) as int) else DigitsValue(t[1..]))
    else if |t| >= 1 && AllDigits(t) then
      Some(DigitsValue(t))
    else
      None
  }

  /** `int()` strips its argument itself, and finds no number in blank text. */
  lemma ParseIntOfStripped(s: string)
    ensures ParseInt(Strip(s)) == ParseInt(s)
    ensures Strip(s) == "" ==> ParseInt(s).None?
  {
    var r := Strip(s);
    StripOfStripped(s);
    assert ParseInt(r) == ParseSigned(r);
    assert ParseInt(s) == ParseSigned(r);
    assert ParseSigned("") == None;
  }

  /** `int(str(n)) == n`. */
  lemma ParseIntOfNatToString(n: nat)
    ensures ParseInt(NatToString(n)) == Some(n)
  {
    var s := NatToString(n);
    assert forall i :: 0 <= i < |s| ==> !IsSpace(s[i]) by {
      forall i | 0 <= i < |s|
        ensures !IsSpace(s[i])
      {
        assert IsDigit(s[i]);
      }
    }
    StripNoSpace(s);
    assert Strip(s) == s;
    assert s[0] != '+' && s[0] != '-' by {
      assert IsDigit(s[0]);
    }
    DigitsValueOfNatToString(n);
  }

  // ---------------------------------------------------------------------------
  // `<` on str: lexicographic order of code points

  /** Python's `a < b` on strings. */
  predicate LexLess(a: string, b: string) {
    if |a| == 0 then |b| > 0
    else if |b| == 0 then false
    else if a[0] != b[0] then a[0] < b[0]
    else LexLess(a[1..], b[1..])
  }

  lemma {:induction false} LexLessIrreflexive(a: string)
    ensures !LexLess(a, a)
  {
    if |a| > 0 {
      LexLessIrreflexive(a[1..]);
    }
  }

  lemma {:induction false} LexLessTransitive(a: string, b: string, c: string)
    requires LexLess(a, b) && LexLess(b, c)
    ensures LexLess(a, c)
  {
    if |a| > 0 && |b| > 0 && |c| > 0 && a[0] == b[0] && b[0] == c[0] {
      LexLessTransitive(a[1..], b[1..], c[1..]);
    }
  }

  lemma {:induction false} LexLessConnected(a: string, b: string)
    requires a != b
    ensures LexLess(a, b) || LexLess(b, a)
  {
    if |a| > 0 && |b| > 0 && a[0] == b[0] {
      assert a == [a[0]] + a[1..];
      assert b == [b[0]] + b[1..];
      LexLessConnected(a[1..], b[1..]);
    }
  }
}
