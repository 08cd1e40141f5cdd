/**
  Characters, decimal numbers and lines, as Python's `str` sees them.

  A line is a non-empty string whose only line break, if it has one, is at its end. The line
  breaks and the white space are the ones of `str.splitlines` and `str.isspace`; digits are
  the ASCII ones.
 */
module Text {
  import opened Wrappers

  // ---- characters -------------------------------------------------------------------------

  predicate IsBreak(c: char) {
    c == '\n' || c == '\r' || c == '\U{0B}' || c == '\U{0C}' || c == '\U{1C}' || c == '\U{1D}'
    || c == '\U{1E}' || c == '\U{85}' || c == '\U{2028}' || c == '\U{2029}'
  }

  predicate IsSpace(c: char) {
    c == ' ' || c == '\t' || IsBreak(c) || c == '\U{1F}' || c == '\U{A0}' || c == '\U{1680}'
    || '\U{2000}' <= c <= '\U{200A}' || c == '\U{202F}' || c == '\U{205F}' || c == '\U{3000}'
  }

  predicate NotSpace(c: char) { !IsSpace(c) }

  /** The characters of `str.isspace`. */
  lemma SpacesAre(c: char)
    ensures IsSpace(c) <==>
      || c in "\t\n\r \U{0B}\U{0C}\U{1C}\U{1D}\U{1E}\U{1F}\U{85}\U{A0}\U{1680}\U{2028}\U{2029}\U{202F}\U{205F}\U{3000}"
      || c in "\U{2000}\U{2001}\U{2002}\U{2003}\U{2004}\U{2005}\U{2006}\U{2007}\U{2008}\U{2009}\U{200A}"
  {
  }

  predicate IsBlank(c: char) {
    c == ' ' || c == '\t'
  }

  predicate IsDigit(c: char) {
    '0' <= c <= '9'
  }

  const ELLIPSIS: char := '\U{2026}'

  // ---- spans ------------------------------------------------------------------------------

  predicate All(p: char -> bool, s: string) {
    forall i | 0 <= i < |s| :: p(s[i])
  }

  /** The length of the longest prefix of `s` made of characters satisfying `p`. */
  function Span(p: char -> bool, s: string): (n: nat)
    ensures n <= |s|
    ensures All(p, s[..n])
    ensures n < |s| ==> !p(s[n])
  {
    if s == "" || !p(s[0]) then 0 else 1 + Span(p, s[1..])
  }

  lemma {:induction false} SpanUnique(p: char -> bool, s: string, n: nat)
    requires n <= |s| && All(p, s[..n])
    requires n < |s| ==> !p(s[n])
    ensures Span(p, s) == n
  {
  }

  /** A span depends only on the characters up to its end. */
  lemma SpanAgrees(p: char -> bool, s: string, s': string, from: nat)
    requires from <= |s|
    requires var to := from + Span(p, s[from..]); to < |s'| && s'[..to] == s[..to] && !p(s'[to])
    ensures Span(p, s'[from..]) == Span(p, s[from..])
  {
    var n := Span(p, s[from..]);
    forall i | 0 <= i < n ensures p(s'[from..][..n][i]) {
      assert s'[..from + n][from + i] == s[..from + n][from + i];
      assert s[from..][..n][i] == s[from + i];
    }
    SpanUnique(p, s'[from..], n);
  }

  function Repeat(c: char, n: nat): (s: string)
    ensures |s| == n && forall i | 0 <= i < n :: s[i] == c
  {
    if n == 0 then "" else [c] + Repeat(c, n - 1)
  }

  lemma RepeatCons(c: char, n: nat, rest: string)
    ensures Repeat(c, n + 1) + rest == [c] + (Repeat(c, n) + rest)
  {
  }

  // ---- weighted lengths -------------------------------------------------------------------

  type Weight = char -> nat

  /** The length of a text in which a character counts as much as the weight says. */
  function Weigh(w: Weight, t: string): nat {
    if t == "" then 0 else w(t[0]) + Weigh(w, t[1..])
  }

  const UNIT: Weight := (c: char) => 1

  lemma {:induction false} WeighUnit(t: string)
    ensures Weigh(UNIT, t) == |t|
  {
    if t != "" {
      WeighUnit(t[1..]);
    }
  }

  lemma {:induction false} WeighAppend(w: Weight, a: string, b: string)
    ensures Weigh(w, a + b) == Weigh(w, a) + Weigh(w, b)
  {
    if a == "" {
      assert a + b == b;
    } else {
      assert (a + b)[1..] == a[1..] + b;
      WeighAppend(w, a[1..], b);
    }
  }

  // ---- decimal numbers --------------------------------------------------------------------

  lemma DigitsAre(c: char)
    ensures IsDigit(c) <==> c in "0123456789"
  {
    if IsDigit(c) {
      DigitIs(c as int - '0' as int);
    }
  }

  lemma DigitIs(d: nat)
    requires d < 10
    ensures "0123456789"[d] == Digit(d)
  {
    assert d == 0 || d == 1 || d == 2 || d == 3 || d == 4 || d == 5 || d == 6 || d == 7 || d == 8 || d == 9;
  }

  /** A number is written digit by digit. */
  lemma DecimalDigits(n: nat)
    ensures Dec(n) == (if n < 10 then "" else Dec(n / 10)) + ["0123456789"[n % 10]]
  {
    DigitIs(n % 10);
    assert "" + [Digit(n % 10)] == [Digit(n % 10)];
  }

  function Digit(d: nat): (c: char)
    requires d < 10
    ensures IsDigit(c) && DigitValue(c) == d
  {
    ('0' as int + d) as char
  }

  function DigitValue(c: char): (d: nat)
    requires IsDigit(c)
    ensures d < 10
  {
    c as int - '0' as int
  }

  /** Decimal printing, as `"%d" % n`. */
  function Dec(n: nat): (s: string)
    ensures s != "" && All(IsDigit, s)
  {
    if n < 10 then [Digit(n)] else Dec(n / 10) + [Digit(n % 10)]
  }

  function ParseDec(s: string): nat
    requires All(IsDigit, s)
  {
    if s == "" then 0 else
      assert IsDigit(s[|s| - 1]);
      10 * ParseDec(s[..|s| - 1]) + DigitValue(s[|s| - 1])
  }

  lemma {:induction false} ParsePrinted(n: nat)
    ensures ParseDec(Dec(n)) == n
  {
    var s := Dec(n);
    if n >= 10 {
      ParsePrinted(n / 10);
      assert s[..|s| - 1] == Dec(n / 10);
    } else {
      assert s[..0] == "";
    }
  }

  /** The number at the head of `s`, read greedily, and what comes after it. */
  function TakeNumber(s: string): Option<(nat, string)> {
    var d := Span(IsDigit, s);
    if d > 0 then Some((ParseDec(s[..d]), s[d..])) else None
  }

  lemma TakePrinted(n: nat, rest: string)
    requires rest != "" ==> !IsDigit(rest[0])
    ensures TakeNumber(Dec(n) + rest) == Some((n, rest))
  {
    var s, d := Dec(n) + rest, |Dec(n)|;
    assert s[..d] == Dec(n) && s[d..] == rest;
    SpanUnique(IsDigit, s, d);
    ParsePrinted(n);
  }

  /** What comes after the literal `pre`, if `s` starts with it. */
  function After(pre: string, s: string): (r: Option<string>) {
    if pre <= s then Some(s[|pre|..]) else None
  }

  lemma AfterOfAppend(pre: string, s: string)
    ensures After(pre, pre + s) == Some(s)
  {
    assert (pre + s)[|pre|..] == s;
  }

  /** The text `pre`, a number, `post`; and the reading of such a text. */
  function Numbered(pre: string, n: nat, post: string): string {
    pre + Dec(n) + post
  }

  function NumberIn(pre: string, post: string, s: string): Option<nat> {
    match After(pre, s)
    case None => None
    case Some(tail) =>
      match TakeNumber(tail)
      case None => None
      case Some((n, rest)) => if rest == post then Some(n) else None
  }

  lemma NumberReadsBack(pre: string, n: nat, post: string)
    requires post != "" ==> !IsDigit(post[0])
    ensures NumberIn(pre, post, Numbered(pre, n, post)) == Some(n)
  {
    assert Numbered(pre, n, post) == pre + (Dec(n) + post);
    AfterOfAppend(pre, Dec(n) + post);
    TakePrinted(n, post);
  }

  function Pow10(k: nat): (p: nat)
    ensures p >= 1
  {
    if k == 0 then 1 else 10 * Pow10(k - 1)
  }

  /** A number has at most `k` digits exactly when it is below the `k`-th power of ten. */
  lemma {:induction false} DecimalLength(n: nat, k: nat)
    requires k >= 1
    ensures |Dec(n)| <= k <==> n < Pow10(k)
  {
    if n < 10 {
      assert Pow10(k) == 10 * Pow10(k - 1);
    } else if k == 1 {
      assert Pow10(1) == 10 * Pow10(0);
    } else {
      DecimalLength(n / 10, k - 1);
      assert Pow10(k) == 10 * Pow10(k - 1);
    }
  }

  lemma {:induction false} DecimalIsShort(n: nat)
    ensures n >= 10 ==> |Dec(n)| <= n - 8
    ensures n < 10 ==> |Dec(n)| == 1
  {
    if n >= 10 {
      DecimalIsShort(n / 10);
    }
  }

  // ---- lines ------------------------------------------------------------------------------

  /** The length of the first line of `t`, with its line break; "\r\n" is one break. */
  function LineLen(t: string): (n: nat)
    requires t != ""
    ensures 1 <= n <= |t|
  {
    if t[0] == '\r' && |t| > 1 && t[1] == '\n' then 2
    else if IsBreak(t[0]) || |t| == 1 then 1
    else 1 + LineLen(t[1..])
  }

  /** `t.splitlines(keepends=True)` */
  function SplitLines(t: string): (ls: seq<string>) {
    if t == "" then [] else [t[..LineLen(t)]] + SplitLines(t[LineLen(t)..])
  }

  /** `"".join(ls)` */
  function Join(ls: seq<string>): string {
    if ls == [] then "" else ls[0] + Join(ls[1..])
  }

  predicate IsLine(l: string) {
    l != "" && LineLen(l) == |l|
  }

  /** May line `b` come right after line `a` in a text? */
  predicate Follows(a: string, b: string) {
    a != "" && b != "" && IsBreak(a[|a| - 1]) && !(a[|a| - 1] == '\r' && b[0] == '\n')
  }

  /** The line sequences that are the lines of some text. */
  predicate LinesOfText(ls: seq<string>) {
    && (forall i | 0 <= i < |ls| :: IsLine(ls[i]))
    && forall i | 0 < i < |ls| :: Follows(ls[i - 1], ls[i])
  }

  lemma {:induction false} JoinOfSplit(t: string)
    ensures Join(SplitLines(t)) == t
  {
    if t != "" {
      JoinOfSplit(t[LineLen(t)..]);
      assert t == t[..LineLen(t)] + t[LineLen(t)..];
    }
  }

  lemma JoinOfCons(l: string, ls: seq<string>)
    ensures Join([l] + ls) == l + Join(ls)
  {
    assert ([l] + ls)[1..] == ls;
  }

  lemma AllInAppend(p: char -> bool, a: string, b: string)
    ensures All(p, a + b) <==> All(p, a) && All(p, b)
  {
    if All(p, a + b) {
      assert forall i | 0 <= i < |a| :: a[i] == (a + b)[i];
      assert forall i | 0 <= i < |b| :: b[i] == (a + b)[|a| + i];
    }
  }

  lemma {:induction false} AllInJoin(p: char -> bool, ls: seq<string>)
    ensures All(p, Join(ls)) <==> forall l | l in ls :: All(p, l)
  {
    if ls != [] {
      AllInJoin(p, ls[1..]);
      AllInAppend(p, ls[0], Join(ls[1..]));
      assert ls == [ls[0]] + ls[1..];
    }
  }

  lemma {:induction false} JoinAppend(a: seq<string>, b: seq<string>)
    ensures Join(a + b) == Join(a) + Join(b)
  {
    if a == [] {
      assert a + b == b;
    } else {
      JoinAppend(a[1..], b);
      assert (a + b)[0] == a[0] && (a + b)[1..] == a[1..] + b;
      Regroup(a[0], Join(a[1..]), Join(b));
    }
  }

  lemma {:induction false} FirstLine(t: string)
    requires t != ""
    ensures var k := LineLen(t); IsLine(t[..k]) && (k < |t| ==> Follows(t[..k], t[k..]))
  {
    var k := LineLen(t);
    if !(t[0] == '\r' && |t| > 1 && t[1] == '\n') && !IsBreak(t[0]) && |t| > 1 {
      FirstLine(t[1..]);
      assert t[1..][..k - 1] == t[..k][1..];
      assert t[1..][k - 1..] == t[k..];
    }
  }

  lemma {:induction false} LineLenOfAppend(a: string, rest: string)
    requires IsLine(a)
    requires rest != "" ==> Follows(a, rest)
    ensures LineLen(a + rest) == |a|
  {
    if rest == "" {
      assert a + rest == a;
    } else if !IsBreak(a[0]) {
      assert (a + rest)[1..] == a[1..] + rest;
      LineLenOfAppend(a[1..], rest);
    } else {
      assert (a + rest)[0] == a[0];
    }
  }

  lemma {:induction false} JoinedStart(ls: seq<string>)
    requires LinesOfText(ls) && ls != []
    ensures Join(ls) != "" && Join(ls)[0] == ls[0][0]
  {
    assert IsLine(ls[0]);
  }

  lemma LinesTail(s: seq<string>, n: nat)
    requires LinesOfText(s) && n <= |s|
    ensures LinesOfText(s[n..])
  {
    forall i | 0 < i < |s| - n ensures Follows(s[n..][i - 1], s[n..][i]) {
      assert Follows(s[n + i - 1], s[n + i]);
    }
  }

  lemma LinesPrefix(s: seq<string>, n: nat)
    requires LinesOfText(s) && n <= |s|
    ensures LinesOfText(s[..n])
  {
    forall i | 0 < i < n ensures Follows(s[..n][i - 1], s[..n][i]) {
      assert Follows(s[i - 1], s[i]);
    }
  }

  lemma LinesCons(l: string, s: seq<string>)
    requires IsLine(l) && LinesOfText(s)
    requires s != [] ==> Follows(l, s[0])
    ensures LinesOfText([l] + s)
  {
    var t := [l] + s;
    forall i | 0 < i < |t| ensures Follows(t[i - 1], t[i]) {
      if i > 1 {
        assert t[i - 1] == s[i - 2] && t[i] == s[i - 1];
      }
    }
  }

  lemma LinesAppend(a: seq<string>, b: seq<string>)
    requires LinesOfText(a) && LinesOfText(b)
    requires a != [] && b != [] ==> Follows(a[|a| - 1], b[0])
    ensures LinesOfText(a + b)
  {
    var t := a + b;
    forall i | 0 < i < |t| ensures Follows(t[i - 1], t[i]) {
      if i < |a| {
        assert t[i - 1] == a[i - 1] && t[i] == a[i];
      } else if i > |a| {
        assert t[i - 1] == b[i - |a| - 1] && t[i] == b[i - |a|];
      }
    }
  }

  /** A split text satisfies `LinesOfText` ... */
  lemma {:induction false} SplitGivesLines(t: string)
    ensures LinesOfText(SplitLines(t))
  {
    if t != "" {
      var k := LineLen(t);
      var rest := SplitLines(t[k..]);
      FirstLine(t);
      SplitGivesLines(t[k..]);
      if k < |t| {
        JoinOfSplit(t[k..]);
        JoinedStart(rest);
        assert Follows(t[..k], rest[0]);
      }
      var ls := [t[..k]] + rest;
      forall i | 0 < i < |ls| ensures Follows(ls[i - 1], ls[i]) {
        if i > 1 {
          assert ls[i - 1] == rest[i - 2] && ls[i] == rest[i - 1];
        }
      }
    }
  }

  /** ... and a sequence satisfying it is what its joined text splits into. */
  lemma {:induction false} SplitOfJoin(ls: seq<string>)
    requires LinesOfText(ls)
    ensures SplitLines(Join(ls)) == ls
  {
    if ls != [] {
      var rest := Join(ls[1..]);
      assert IsLine(ls[0]);
      if |ls| > 1 {
        JoinedStart(ls[1..]);
        assert Follows(ls[0], ls[1]);
      }
      LineLenOfAppend(ls[0], rest);
      assert Join(ls)[..|ls[0]|] == ls[0] && Join(ls)[|ls[0]|..] == rest;
      forall i | 0 < i < |ls[1..]| ensures Follows(ls[1..][i - 1], ls[1..][i]) {
        assert Follows(ls[i], ls[i + 1]);
      }
      SplitOfJoin(ls[1..]);
    }
  }

  lemma ClosedLinesAreText(ls: seq<string>)
    requires forall i | 0 <= i < |ls| :: IsLine(ls[i]) && ls[i][|ls[i]| - 1] == '\n'
    ensures LinesOfText(ls)
  {
    forall i | 0 < i < |ls| ensures Follows(ls[i - 1], ls[i]) {
      assert IsLine(ls[i]) && IsLine(ls[i - 1]);
    }
  }

  /** Lines closed with "\n" in front of any text. */
  lemma ClosedLinesSplit(ls: seq<string>, rest: string)
    requires forall i | 0 <= i < |ls| :: IsLine(ls[i]) && ls[i][|ls[i]| - 1] == '\n'
    ensures SplitLines(Join(ls) + rest) == ls + SplitLines(rest)
  {
    var more := SplitLines(rest);
    ClosedLinesAreText(ls);
    SplitGivesLines(rest);
    JoinOfSplit(rest);
    assert more != [] ==> IsLine(more[0]);
    assert ls != [] ==> IsLine(ls[|ls| - 1]);
    LinesAppend(ls, more);
    JoinAppend(ls, more);
    SplitOfJoin(ls + more);
  }

  /** `str.splitlines`: a line ends at the first of the ten breaks, or at the end of the text; "\r\n" is one
      break. */
  lemma SplitAtBreak(a: string, e: string, rest: string)
    requires forall i | 0 <= i < |a| :: a[i] !in "\n\r\U{0B}\U{0C}\U{1C}\U{1D}\U{1E}\U{85}\U{2028}\U{2029}"
    requires e == "\r\n" || (|e| == 1 && e[0] in "\n\r\U{0B}\U{0C}\U{1C}\U{1D}\U{1E}\U{85}\U{2028}\U{2029}")
    requires !(e == "\r" && rest != "" && rest[0] == '\n')
    ensures SplitLines(a + e + rest) == [a + e] + SplitLines(rest)
    ensures SplitLines("") == [] && (a != "" ==> SplitLines(a) == [a])
  {
    var l := a + e;
    assert NoBreaks(a);
    LineOfShape(a, e);
    assert IsBreak(l[|l| - 1]);
    LineLenOfAppend(l, rest);
    assert (l + rest)[..|l|] == l && (l + rest)[|l|..] == rest;
    if a != "" {
      LineOfShape(a, "");
      assert a + "" == a && a[..|a|] == a && a[|a|..] == "";
    }
  }

  predicate NoBreaks(s: string) {
    forall i | 0 <= i < |s| :: !IsBreak(s[i])
  }

  lemma NoBreaksInAppend(a: string, b: string)
    requires NoBreaks(a) && NoBreaks(b)
    ensures NoBreaks(a + b)
  {
  }

  lemma NoBreaksInNumbered(pre: string, n: nat, post: string)
    requires NoBreaks(pre) && NoBreaks(post)
    ensures NoBreaks(Numbered(pre, n, post))
  {
    var s := Numbered(pre, n, post);
    forall i | 0 <= i < |s| ensures !IsBreak(s[i]) {
      if |pre| <= i < |pre| + |Dec(n)| {
        assert s[i] == Dec(n)[i - |pre|] && IsDigit(s[i]);
      }
    }
  }

  predicate EndsInReturn(l: string) {
    l != "" && l[|l| - 1] == '\r'
  }

  /** Putting `b` behind `a` makes no "\r\n". */
  predicate NoCrLfBetween(a: string, b: string) {
    EndsInReturn(a) && b != "" ==> b[0] != '\n'
  }

  /** No "\r\n" in `t`. */
  predicate NoCrLf(t: string) {
    forall i | 0 <= i < |t| - 1 && t[i] == '\r' :: t[i + 1] != '\n'
  }

  lemma NoCrLfInAppend(a: string, b: string)
    requires NoCrLfBetween(a, b)
    ensures NoCrLf(a + b) <==> NoCrLf(a) && NoCrLf(b)
  {
    var t := a + b;
    if NoCrLf(t) {
      forall i | 0 <= i < |b| - 1 && b[i] == '\r' ensures b[i + 1] != '\n' {
        assert t[|a| + i] == b[i] && t[|a| + i + 1] == b[i + 1];
      }
      assert forall i | 0 <= i < |a| :: t[i] == a[i];
    }
  }

  // ---- content and end of line ------------------------------------------------------------

  /** `l.rstrip("\r\n")` */
  function Content(l: string): (c: string)
    ensures |c| <= |l| && c == l[..|c|]
  {
    if l != "" && (l[|l| - 1] == '\n' || l[|l| - 1] == '\r') then Content(l[..|l| - 1]) else l
  }

  /** The end of line a marker after `l` gets: that of `l`, or "\n" when `l` shows none. */
  function EolFor(l: string): (e: string)
    ensures e != ""
  {
    var c := Content(l);
    if |c| < |l| then l[|c|..] else "\n"
  }

  lemma {:induction false} ContentEndsPlain(l: string)
    ensures Content(l) != "" ==> Content(l)[|Content(l)| - 1] !in "\r\n"
    ensures forall i | |Content(l)| <= i < |l| :: l[i] in "\r\n"
  {
    if l != "" && (l[|l| - 1] == '\n' || l[|l| - 1] == '\r') {
      ContentEndsPlain(l[..|l| - 1]);
    }
  }

  lemma {:induction false} ContentOfAppend(c: string, e: string)
    requires c != "" ==> c[|c| - 1] !in "\r\n"
    requires forall i | 0 <= i < |e| :: e[i] in "\r\n"
    ensures Content(c + e) == c
  {
    if e == "" {
      assert c + e == c;
    } else {
      assert (c + e)[|c + e| - 1] == e[|e| - 1];
      assert (c + e)[..|c + e| - 1] == c + e[..|e| - 1];
      ContentOfAppend(c, e[..|e| - 1]);
    }
  }

  /** What a line ends with after `rstrip("\r\n")`, and what a marker made of it is closed with. */
  lemma EolOfEnd(c: string, e: string)
    requires c != "" ==> c[|c| - 1] !in "\r\n"
    requires forall i | 0 <= i < |e| :: e[i] in "\r\n"
    ensures Content(c + e) == c && EolFor(c + e) == if e == "" then "\n" else e
  {
    ContentOfAppend(c, e);
    assert (c + e)[|c|..] == e;
  }

  /** A marker text without line breaks, closed with the end of line of `l`, is a line that may
      stand where `l` stands. */
  lemma {:induction false} MarkerLine(text: string, l: string)
    requires text != "" && NoBreaks(text)
    requires IsLine(l)
    ensures var m := text + EolFor(l);
            IsLine(m) && Content(m) == text && IsBreak(m[|m| - 1]) && m[0] == text[0]
    ensures (text + EolFor(l))[|text + EolFor(l)| - 1] == '\r' ==> l[|l| - 1] == '\r'
  {
    var e := EolFor(l);
    ContentEndsPlain(l);
    EolShape(l);
    ContentOfAppend(text, e);
    LineLenOfPlain(text, e);
  }

  lemma {:induction false} LineLenOfPlain(text: string, e: string)
    requires NoBreaks(text)
    requires e == "\n" || e == "\r" || e == "\r\n"
    ensures LineLen(text + e) == |text + e|
  {
    if text == "" {
      assert text + e == e;
    } else {
      assert (text + e)[0] == text[0] && (text + e)[1..] == text[1..] + e;
      LineLenOfPlain(text[1..], e);
    }
  }

  lemma {:induction false} EolShape(l: string)
    requires IsLine(l)
    ensures EolFor(l) == "\n" || EolFor(l) == "\r" || EolFor(l) == "\r\n"
    ensures EolFor(l)[|EolFor(l)| - 1] == '\r' ==> l[|l| - 1] == '\r'
  {
    if l[0] == '\r' && |l| > 1 && l[1] == '\n' {
      assert l == "\r\n";
      assert Content("") == "";
      assert Content("\r\n"[..1]) == Content("\r\n"[..1][..0]);
    } else if IsBreak(l[0]) || |l| == 1 {
      assert l[..0] == "";
    } else {
      EolShape(l[1..]);
      ContentOfTail(l);
    }
  }

  lemma {:induction false} ContentOfTail(l: string)
    requires l != "" && l[0] !in "\r\n"
    ensures Content(l) == [l[0]] + Content(l[1..])
  {
    if |l| > 1 && (l[|l| - 1] == '\n' || l[|l| - 1] == '\r') {
      assert l[..|l| - 1][1..] == l[1..][..|l| - 2];
      ContentOfTail(l[..|l| - 1]);
    } else if |l| == 1 {
      assert l[1..] == "";
    }
  }

  /** Without a "\r\n", the end of line that a marker takes over is a line feed or a return. */
  lemma EolOfLine(l: string)
    requires IsLine(l) && NoCrLf(l)
    ensures EolFor(l) == "\n" || EolFor(l) == "\r"
    ensures EolFor(l) == "\r" ==> EndsInReturn(l)
  {
    var c := |Content(l)|;
    EolShape(l);
    assert forall i | 0 <= i < |l| - c :: l[c..][i] == l[c + i];
    assert NoCrLf(l[c..]);
    assert !NoCrLf("\r\n") by {
      assert "\r\n"[0] == '\r' && "\r\n"[1] == '\n';
    }
  }

  // ---- which breaks a text has ------------------------------------------------------------

  /** How a line ends. */
  predicate IsEnding(e: string) {
    e == "\r\n" || (|e| == 1 && IsBreak(e[0])) || e == ""
  }

  lemma {:induction false} LineShape(l: string) returns (b: string, e: string)
    requires IsLine(l)
    ensures l == b + e && NoBreaks(b) && IsEnding(e) && (e == "" ==> b != "")
  {
    if IsBreak(l[0]) {
      b, e := "", l;
      assert l[0] != '\r' || |l| == 1 || l[1] != '\n' ==> |l| == 1;
      assert |l| == 2 ==> l == "\r\n";
    } else if |l| == 1 {
      b, e := l, "";
    } else {
      var b';
      b', e := LineShape(l[1..]);
      b := [l[0]] + b';
      assert l == [l[0]] + l[1..];
    }
  }

  lemma {:induction false} LineOfShape(b: string, e: string)
    requires NoBreaks(b) && IsEnding(e) && (e == "" ==> b != "")
    ensures IsLine(b + e)
  {
    var l := b + e;
    if b == "" {
      assert l == e;
    } else if |l| > 1 {
      assert l[1..] == b[1..] + e;
      LineOfShape(b[1..], e);
    }
  }

  /** A break in a line is its last character, or the return of a "\r\n". */
  lemma {:induction false} BreakEndsLine(l: string, i: nat)
    requires IsLine(l) && i < |l| && IsBreak(l[i])
    ensures i == |l| - 1 || (i == |l| - 2 && l[i] == '\r' && l[i + 1] == '\n')
  {
    if i > 0 && |l| > 1 && !(l[0] == '\r' && l[1] == '\n') && !IsBreak(l[0]) {
      BreakEndsLine(l[1..], i - 1);
    }
  }
}
