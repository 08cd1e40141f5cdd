/**
  `fenced_log_fold` (engine/simplicio_compress.py): five or more lines that open with the same
  tag or time stamp become the first of them and a marker. Python's `repr` is a parameter.
 */
module LogFold {
  import opened RunFold
  import opened Text
  import opened TextFold
  import opened Wrappers

  /** Does `s` have the form `form`, where '0' stands for a digit and '_' for a space or 'T'? */
  predicate HasForm(form: string, s: string) {
    |form| <= |s| && forall i | 0 <= i < |form| ::
      if form[i] == '0' then IsDigit(s[i])
      else if form[i] == '_' then s[i] == ' ' || s[i] == 'T'
      else s[i] == form[i]
  }

  const DATE_TIME: string := "0000-00-00_00:00:00"
  const TIME: string := "00:00:00"

  predicate NotClosing(c: char) { c != ']' }

  /** The length of "[tag]" at the head of `b`; 0 if there is none. */
  function TagLen(b: string): (n: nat)
    ensures n <= |b|
    ensures n > 0 ==> b[n - 1] == ']'
  {
    if b == "" || b[0] != '[' then 0 else
      var k := Span(NotClosing, b[1..]);
      if k >= 1 && k + 1 < |b| then k + 2 else 0
  }

  /** The length of an optional fraction ".5" or ",5" at the head of `b`. */
  function FractionLen(b: string): (n: nat)
    ensures n <= |b|
  {
    if b == "" || (b[0] != '.' && b[0] != ',') then 0 else
      var d := Span(IsDigit, b[1..]);
      if d > 0 then 1 + d else 0
  }

  /** The length of the tag or time stamp at the head of `b`, without the space after it. */
  function StampLen(b: string): (n: nat)
    ensures n <= |b|
  {
    if TagLen(b) > 0 then TagLen(b)
    else if HasForm(DATE_TIME, b) then |DATE_TIME| + Span(NotSpace, b[|DATE_TIME|..])
    else if HasForm(TIME, b) then |TIME| + FractionLen(b[|TIME|..])
    else 0
  }

  /** The same with the space after it. */
  function PrefixLen(b: string): (n: nat)
    ensures n <= |b|
    ensures n == 0 <==> StampLen(b) == 0
  {
    if StampLen(b) == 0 then 0 else StampLen(b) + Span(IsSpace, b[StampLen(b)..])
  }

  /** `_line_prefix`: the indent, the tag or time stamp and the space after it. */
  function LinePrefix(c: string): (p: Option<string>) {
    var indent := Span(IsBlank, c);
    var n := PrefixLen(c[indent..]);
    if n == 0 then None else Some(c[..indent + n])
  }

  function Strip(s: string): string {
    if s == "" then s
    else if IsSpace(s[0]) then Strip(s[1..])
    else if IsSpace(s[|s| - 1]) then Strip(s[..|s| - 1])
    else s
  }

  const BEFORE: string := [ELLIPSIS] + " ("
  const AFTER: string := " more lines with prefix "

  function Key(l: string): Option<string> {
    LinePrefix(Content(l))
  }

  predicate Same(k: string, l: string) {
    Key(l) == Some(k)
  }

  function MarkerText(repr: string -> string, k: string, n: nat): string {
    k + Numbered(BEFORE, n, AFTER) + repr(Strip(k)) + ")"
  }

  function Marker(repr: string -> string, first: string, k: string, run: nat): string {
    MarkerText(repr, k, if run == 0 then 0 else run - 1) + EolFor(first)
  }

  function LogRule(repr: string -> string): Rule {
    Rule(Key, Same, 5, true, (first: string, k: string, run: nat) => Marker(repr, first, k, run))
  }

  function LogText(repr: string -> string, t: string): string {
    Join(Fold(LogRule(repr), SplitLines(t)))
  }

  method FencedLogFold(repr: string -> string, text: string) returns (r: string)
    ensures r == LogText(repr, text)
  {
    var out := FoldRuns(LogRule(repr), SplitLines(text));
    r := Join(out);
  }

  // ---- what it does -----------------------------------------------------------------------

  /** Main result: the runs folded are exactly the maximal runs of five or more lines with equal
      prefixes; every other line is kept. */
  lemma LogCutsAtLongRuns(repr: string -> string, s: seq<string>)
    ensures var segs := Segments(LogRule(repr), s);
            && Flatten(segs) == s
            && Render(LogRule(repr), segs) == Fold(LogRule(repr), s)
            && CutsAtLongRuns(LogRule(repr), segs)
  {
    LogRuleByKey(repr);
    FoldCutsAtLongRuns(LogRule(repr), s);
  }

  // ---- which lines have a prefix ----------------------------------------------------------

  /** "[tag]" */
  predicate IsTag(x: string) {
    |x| >= 3 && x[0] == '[' && x[|x| - 1] == ']' && forall i | 0 < i < |x| - 1 :: x[i] != ']'
  }

  predicate AreDigits(x: string, i: nat, n: nat) {
    i + n <= |x| && forall j | i <= j < i + n :: '0' <= x[j] <= '9'
  }

  /** "2024-01-31 23:59:59", or with a 'T' in the middle, and what follows it up to a space. */
  predicate IsDateStamp(x: string) {
    && |x| >= 19 && AreDigits(x, 0, 4) && AreDigits(x, 5, 2) && AreDigits(x, 8, 2)
    && AreDigits(x, 11, 2) && AreDigits(x, 14, 2) && AreDigits(x, 17, 2)
    && x[4] == '-' && x[7] == '-' && (x[10] == ' ' || x[10] == 'T') && x[13] == ':' && x[16] == ':'
    && forall i | 19 <= i < |x| :: !IsSpace(x[i])
  }

  /** "23:59:59" */
  predicate IsTime(x: string) {
    && |x| >= 8 && AreDigits(x, 0, 2) && AreDigits(x, 3, 2) && AreDigits(x, 6, 2) && x[2] == ':' && x[5] == ':'
  }

  /** "23:59:59", or with a fraction. */
  predicate IsTimeStamp(x: string) {
    && IsTime(x)
    && (|x| > 8 ==> (x[8] == '.' || x[8] == ',') && |x| > 9 && AreDigits(x, 9, |x| - 9))
  }

  /** Nothing of `rest` belongs to the stamp `x`: the tag is closed, the stamp with a date goes up to a space,
      the time has its whole fraction. */
  predicate EndsBefore(x: string, rest: string) {
    || IsTag(x)
    || (IsDateStamp(x) && (rest == "" || IsSpace(rest[0])))
    || (IsTimeStamp(x) && |x| > 8 && !AreDigits(rest, 0, 1))
    || (IsTimeStamp(x) && |x| == 8
        && !(|rest| >= 2 && (rest[0] == '.' || rest[0] == ',') && AreDigits(rest, 1, 1)))
  }

  /** `c` is an indent, a tag or stamp, the space after it and the rest; `k` is all but the rest. */
  predicate HasPrefix(c: string, k: string, indent: string, x: string, w: string, rest: string) {
    && (forall i | 0 <= i < |indent| :: indent[i] == ' ' || indent[i] == '\t')
    && EndsBefore(x, w + rest) && All(IsSpace, w) && (rest == "" || !IsSpace(rest[0]))
    && c == indent + (x + (w + rest)) && k == indent + (x + w)
  }

  lemma SpanIn(p: char -> bool, a: string, b: string)
    requires All(p, a) && (b == "" || !p(b[0]))
    ensures Span(p, a + b) == |a|
  {
    assert (a + b)[..|a|] == a && (b != "" ==> (a + b)[|a|] == b[0]);
    SpanUnique(p, a + b, |a|);
  }

  lemma TailIn(a: string, b: string)
    ensures (a + b)[|a|..] == b && (a + b)[..|a|] == a
  {
  }

  lemma DateFormIs(b: string)
    ensures HasForm(DATE_TIME, b) <==>
              && |b| >= 19 && AreDigits(b, 0, 4) && AreDigits(b, 5, 2) && AreDigits(b, 8, 2)
              && AreDigits(b, 11, 2) && AreDigits(b, 14, 2) && AreDigits(b, 17, 2)
              && b[4] == '-' && b[7] == '-' && (b[10] == ' ' || b[10] == 'T') && b[13] == ':' && b[16] == ':'
  {
    var form := "0000-00-00_00:00:00";
    if HasForm(DATE_TIME, b) {
      assert form[4] == form[7] == '-' && form[10] == '_' && form[13] == form[16] == ':';
    }
  }

  lemma TimeFormIs(b: string)
    ensures HasForm(TIME, b) <==> IsTime(b)
  {
    var form := "00:00:00";
    if HasForm(TIME, b) {
      assert form[2] == form[5] == ':';
    }
  }

  lemma TagStamp(x: string, rest: string)
    requires IsTag(x)
    ensures StampLen(x + rest) == |x|
  {
    var b := x + rest;
    var tag := x[1..|x| - 1];
    assert b[0] == '[' && b[1..] == tag + ([']'] + rest);
    forall i | 0 <= i < |tag| ensures NotClosing(tag[i]) {
      assert tag[i] == x[i + 1];
    }
    SpanIn(NotClosing, tag, [']'] + rest);
  }

  lemma DateStamp(x: string, rest: string)
    requires IsDateStamp(x) && (rest == "" || IsSpace(rest[0]))
    ensures StampLen(x + rest) == |x|
  {
    var b := x + rest;
    DateFormIs(x);
    DateFormIs(b);
    FormsAreDisjoint(b);
    assert forall i | 0 <= i < 19 :: b[i] == x[i];
    assert b[19..] == x[19..] + rest;
    SpanIn(NotSpace, x[19..], rest);
  }

  lemma TimeStamp(x: string, rest: string)
    requires IsTimeStamp(x) && !IsTag(x) && !IsDateStamp(x) && EndsBefore(x, rest)
    ensures StampLen(x + rest) == |x|
  {
    var b := x + rest;
    TimeFormIs(b);
    FormsAreDisjoint(b);
    assert forall i | 0 <= i < 8 :: b[i] == x[i];
    assert b[8..] == x[8..] + rest;
    FractionIn(x, rest);
  }

  lemma FractionIn(x: string, rest: string)
    requires IsTimeStamp(x) && !IsTag(x) && !IsDateStamp(x) && EndsBefore(x, rest)
    ensures FractionLen(x[8..] + rest) == |x| - 8
  {
    var t := x[8..] + rest;
    if |x| > 8 {
      assert t[0] == x[8] && t[1..] == x[9..] + rest;
      SpanIn(IsDigit, x[9..], rest);
    } else {
      assert t == rest;
      if |rest| >= 2 && (rest[0] == '.' || rest[0] == ',') {
        assert rest[1..][0] == rest[1];
      }
    }
  }

  lemma StampsAre(x: string, rest: string)
    requires EndsBefore(x, rest)
    ensures StampLen(x + rest) == |x| && x != "" && x[0] != ' ' && x[0] != '\t'
  {
    if IsTag(x) {
      TagStamp(x, rest);
    } else if IsDateStamp(x) {
      StampsDiffer(x);
      DateStamp(x, rest);
    } else {
      TimeStamp(x, rest);
    }
  }

  lemma StampsDiffer(x: string)
    requires IsDateStamp(x)
    ensures !IsTimeStamp(x)
  {
    assert '0' <= x[2] <= '9';
  }

  lemma PrefixLenOf(x: string, w: string, rest: string)
    requires EndsBefore(x, w + rest) && All(IsSpace, w) && (rest == "" || !IsSpace(rest[0]))
    ensures PrefixLen(x + (w + rest)) == |x| + |w| > 0 && !IsBlank((x + (w + rest))[0])
  {
    StampsAre(x, w + rest);
    TailIn(x, w + rest);
    SpanIn(IsSpace, w, rest);
  }

  lemma LinePrefixOf(indent: string, b: string, n: nat)
    requires All(IsBlank, indent) && b != "" && !IsBlank(b[0]) && PrefixLen(b) == n > 0
    ensures LinePrefix(indent + b) == Some(indent + b[..n])
  {
    SpanIn(IsBlank, indent, b);
    TailIn(indent, b);
    assert (indent + b)[..|indent| + n] == indent + b[..n];
  }

  lemma PrefixOfForm(c: string, k: string, indent: string, x: string, w: string, rest: string)
    requires HasPrefix(c, k, indent, x, w, rest)
    ensures LinePrefix(c) == Some(k)
  {
    var b := x + (w + rest);
    PrefixLenOf(x, w, rest);
    assert All(IsBlank, indent);
    assert b[..|x| + |w|] == x + w;
    LinePrefixOf(indent, b, |x| + |w|);
  }

  lemma TagOfStamp(b: string)
    requires TagLen(b) > 0
    ensures IsTag(b[..TagLen(b)])
  {
    var x, tail := b[..TagLen(b)], b[1..];
    forall i | 0 < i < |x| - 1 ensures x[i] != ']' {
      assert x[i] == tail[i - 1] == tail[..|x| - 2][i - 1] && NotClosing(tail[i - 1]);
    }
  }

  lemma DateOfStamp(b: string, n: nat)
    requires HasForm(DATE_TIME, b) && n == 19 + Span(NotSpace, b[19..]) && n <= |b|
    ensures EndsBefore(b[..n], b[n..])
  {
    var x, tail := b[..n], b[19..];
    DateFormIs(b);
    assert forall i | 0 <= i < n :: x[i] == b[i];
    forall i | 19 <= i < n ensures !IsSpace(x[i]) {
      assert x[i] == tail[i - 19] == tail[..n - 19][i - 19];
    }
    SpanEnds(NotSpace, b, 19);
  }

  lemma TimeOfStamp(b: string, n: nat)
    requires HasForm(TIME, b) && n == 8 + FractionLen(b[8..]) && n <= |b|
    ensures EndsBefore(b[..n], b[n..])
  {
    var x, rest := b[..n], b[n..];
    TimeFormIs(b);
    FractionAt(b);
    assert forall i | 0 <= i < n :: x[i] == b[i];
    if n > 8 {
      var tail := b[9..];
      forall i | 9 <= i < n ensures '0' <= x[i] <= '9' {
        assert x[i] == tail[i - 9] == tail[..n - 9][i - 9] && IsDigit(tail[i - 9]);
      }
      SpanEnds(IsDigit, b, 9);
    } else if |rest| >= 2 && (rest[0] == '.' || rest[0] == ',') {
      assert rest[0] == b[8] && rest[1] == b[9];
      SpanEnds(IsDigit, b, 9);
    }
  }

  lemma StampEnds(b: string)
    requires StampLen(b) > 0
    ensures EndsBefore(b[..StampLen(b)], b[StampLen(b)..])
  {
    FormsAreDisjoint(b);
    if TagLen(b) > 0 {
      TagOfStamp(b);
    } else if HasForm(DATE_TIME, b) {
      DateOfStamp(b, StampLen(b));
    } else {
      TimeOfStamp(b, StampLen(b));
    }
  }

  lemma IndentIs(c: string)
    ensures var indent := c[..Span(IsBlank, c)]; forall i | 0 <= i < |indent| :: indent[i] == ' ' || indent[i] == '\t'
  {
    var indent := c[..Span(IsBlank, c)];
    forall i | 0 <= i < |indent| ensures indent[i] == ' ' || indent[i] == '\t' {
      assert IsBlank(indent[i]);
    }
  }

  /** The indent, the stamp, the space after it and the rest of `c`. */
  lemma PrefixParts(c: string) returns (indent: string, x: string, w: string, rest: string)
    requires StampLen(c[Span(IsBlank, c)..]) > 0
    ensures c == indent + (x + (w + rest)) && x + (w + rest) == c[Span(IsBlank, c)..]
    ensures indent == c[..Span(IsBlank, c)] && StampLen(x + (w + rest)) == |x| > 0
    ensures All(IsSpace, w) && (rest == "" || !IsSpace(rest[0]))
  {
    var n := Span(IsBlank, c);
    var b := c[n..];
    var tail := b[StampLen(b)..];
    var s := Span(IsSpace, tail);
    indent, x, w, rest := c[..n], b[..StampLen(b)], tail[..s], tail[s..];
    Rejoin(tail, s);
    Rejoin(b, StampLen(b));
    Rejoin(c, n);
  }

  lemma FormOfPrefix(c: string, k: string)
    requires LinePrefix(c) == Some(k)
    ensures exists indent, x, w, rest :: HasPrefix(c, k, indent, x, w, rest)
  {
    var indent, x, w, rest := PrefixParts(c);
    var k' := indent + (x + w);
    StampEnds(x + (w + rest));
    TailIn(x, w + rest);
    IndentIs(c);
    assert HasPrefix(c, k', indent, x, w, rest);
    PrefixOfForm(c, k', indent, x, w, rest);
  }

  /** Main result: the prefix of a line. */
  lemma PrefixesAre(c: string, k: string)
    ensures LinePrefix(c) == Some(k) <==> exists indent, x, w, rest :: HasPrefix(c, k, indent, x, w, rest)
  {
    if LinePrefix(c) == Some(k) {
      FormOfPrefix(c, k);
    }
    if indent, x, w, rest :| HasPrefix(c, k, indent, x, w, rest) {
      PrefixOfForm(c, k, indent, x, w, rest);
    }
  }

  /** `str.strip` */
  lemma {:induction false} StripsSpace(a: string, x: string, b: string)
    requires All(IsSpace, a) && All(IsSpace, b)
    requires x != "" ==> !IsSpace(x[0]) && !IsSpace(x[|x| - 1])
    ensures Strip(a + (x + b)) == x
    decreases |a| + |b|
  {
    var s := a + (x + b);
    if a != "" {
      assert s[0] == a[0] && s[1..] == a[1..] + (x + b);
      StripsSpace(a[1..], x, b);
    } else if x == "" && b != "" {
      assert s == b && s[1..] == b[1..] + ("" + "");
      StripsSpace(b[1..], "", "");
    } else if b != "" {
      assert s[|s| - 1] == b[|b| - 1] && s[..|s| - 1] == "" + (x + b[..|b| - 1]) && s[0] == x[0];
      StripsSpace("", x, b[..|b| - 1]);
    } else {
      assert s == x;
    }
  }

  /** The marker of a run of `n` lines. */
  lemma MarkerReads(repr: string -> string, first: string, k: string, n: nat)
    requires n > 0
    ensures Marker(repr, first, k, n)
         == k + ("\U{2026} (" + Dec(n - 1) + " more lines with prefix ") + repr(Strip(k)) + ")" + EolFor(first)
  {
    assert BEFORE == "\U{2026} (";
  }

  /** The lines at hand have the prefix `k`. */
  predicate HavePrefix(ls: seq<string>, k: string) {
    forall i | 0 <= i < |ls| :: LinePrefix(Content(ls[i])) == Some(k)
  }

  /** In terms of the rule. */
  lemma LogKeys(repr: string -> string, run: seq<string>, k: string, rest: seq<string>)
    requires HavePrefix(run, k) && (rest == [] || LinePrefix(Content(rest[0])) != Some(k))
    ensures ByKey(LogRule(repr)) && forall i | 0 <= i < |run| :: LogRule(repr).key(run[i]) == Some(k)
    ensures rest != [] ==> LogRule(repr).key(rest[0]) != Some(k)
  {
    LogRuleByKey(repr);
  }

  lemma LogRendered(repr: string -> string, first: string, k: string, n: nat)
    ensures Rendered(LogRule(repr), first, k, n) == [first, Marker(repr, first, k, n)]
  {
  }

  /** Five or more lines with one prefix become the first of them and a marker. */
  lemma LogRunIsFolded(repr: string -> string, run: seq<string>, k: string, rest: seq<string>)
    requires |run| >= 5 && HavePrefix(run, k) && (rest == [] || LinePrefix(Content(rest[0])) != Some(k))
    ensures Fold(LogRule(repr), run + rest)
         == [run[0], Marker(repr, run[0], k, |run|)] + Fold(LogRule(repr), rest)
  {
    LogKeys(repr, run, k, rest);
    KeyRun(LogRule(repr), run, k, rest);
    LogRendered(repr, run[0], k, |run|);
  }

  /** Fewer stay. */
  lemma ShortLogIsKept(repr: string -> string, run: seq<string>, k: string, rest: seq<string>)
    requires 0 < |run| < 5 && HavePrefix(run, k) && (rest == [] || LinePrefix(Content(rest[0])) != Some(k))
    ensures Fold(LogRule(repr), run + rest) == run + Fold(LogRule(repr), rest)
  {
    LogKeys(repr, run, k, rest);
    KeyRun(LogRule(repr), run, k, rest);
  }

  /** Main result: on any text, five or more lines with one prefix become the first of them and a line that
      tells how many more there were; fewer stay. */
  lemma LogLinesAreFolded(repr: string -> string, ls: seq<string>, k: string, rest: string)
    requires ls != [] && HavePrefix(ls, k)
    requires forall i | 0 <= i < |ls| :: IsLine(ls[i]) && ls[i][|ls[i]| - 1] == '\n'
    requires rest == "" || LinePrefix(Content(SplitLines(rest)[0])) != Some(k)
    ensures LogText(repr, Join(ls) + rest)
         == (if |ls| >= 5 then ls[0] + Marker(repr, ls[0], k, |ls|) else Join(ls)) + LogText(repr, rest)
  {
    var more, m := SplitLines(rest), Marker(repr, ls[0], k, |ls|);
    ClosedLinesSplit(ls, rest);
    if |ls| >= 5 {
      LogRunIsFolded(repr, ls, k, more);
      JoinAppend([ls[0], m], Fold(LogRule(repr), more));
      JoinOfTwo(ls[0], m);
    } else {
      ShortLogIsKept(repr, ls, k, more);
      JoinAppend(ls, Fold(LogRule(repr), more));
    }
  }

  /** A line without a prefix stays. */
  lemma OthersAreKept(repr: string -> string, l: string, rest: seq<string>)
    requires LinePrefix(Content(l)) == None
    ensures Fold(LogRule(repr), [l] + rest) == [l] + Fold(LogRule(repr), rest)
  {
    assert ([l] + rest)[0] == l && ([l] + rest)[1..] == rest;
  }

  // ---- when a second pass does nothing ----------------------------------------------------

  /** A line that is a date and time stamp with no space after it: the ellipsis of the marker
      would join the stamp. */
  predicate EndsAtStamp(c: string) {
    var b := c[Span(IsBlank, c)..];
    HasForm(DATE_TIME, b) && PrefixLen(b) == StampLen(b)
  }

  ghost predicate PlainRepr(repr: string -> string) {
    forall s :: NoBreaks(repr(s))
  }

  /** `b'` is the first `n` characters of `b`, then an ellipsis. */
  predicate CutByEllipsis(b: string, n: nat, b': string) {
    n <= |b| && n < |b'| && b'[..n] == b[..n] && b'[n] == ELLIPSIS
  }

  lemma TagIsStable(b: string, n: nat, b': string)
    requires CutByEllipsis(b, n, b') && 0 < TagLen(b) <= n
    ensures TagLen(b') == TagLen(b)
  {
    var k := TagLen(b);
    assert b'[0] == b[..n][0] && b'[k - 1] == b[..n][k - 1];
    assert b[1..][k - 2] == ']';
    assert b'[..k - 1] == b[..n][..k - 1] == b[..k - 1];
    SpanAgrees(NotClosing, b, b', 1);
  }

  lemma FormIsStable(form: string, b: string, n: nat, b': string)
    requires CutByEllipsis(b, n, b') && HasForm(form, b) && |form| <= n
    ensures HasForm(form, b')
  {
    assert forall i | 0 <= i < |form| :: b'[i] == b[..n][i] == b[i];
  }

  lemma DateIsStable(b: string, n: nat, b': string)
    requires CutByEllipsis(b, n, b') && HasForm(DATE_TIME, b)
    requires |DATE_TIME| + Span(NotSpace, b[|DATE_TIME|..]) < n
    ensures HasForm(DATE_TIME, b') && Span(NotSpace, b'[|DATE_TIME|..]) == Span(NotSpace, b[|DATE_TIME|..])
  {
    FormIsStable(DATE_TIME, b, n, b');
    var m := Span(NotSpace, b[|DATE_TIME|..]);
    var to := |DATE_TIME| + m;
    assert b'[to] == b[..n][to] == b[|DATE_TIME|..][m];
    assert b'[..to] == b[..n][..to] == b[..to];
    SpanAgrees(NotSpace, b, b', |DATE_TIME|);
  }

  lemma FractionAt(b: string)
    requires |b| >= |TIME|
    ensures FractionLen(b[|TIME|..])
         == if |b| > |TIME| && (b[|TIME|] == '.' || b[|TIME|] == ',') && Span(IsDigit, b[|TIME| + 1..]) > 0
            then 1 + Span(IsDigit, b[|TIME| + 1..]) else 0
  {
    var x := b[|TIME|..];
    if |b| > |TIME| {
      assert x[0] == b[|TIME|] && x[1..] == b[|TIME| + 1..];
    }
  }

  lemma FractionIsStable(b: string, n: nat, b': string)
    requires CutByEllipsis(b, n, b') && |TIME| < n && (b[|TIME|] == '.' || b[|TIME|] == ',')
    requires var to := |TIME| + 1 + Span(IsDigit, b[|TIME| + 1..]); to <= n && (to < n ==> !IsDigit(b[to]))
    ensures Span(IsDigit, b'[|TIME| + 1..]) == Span(IsDigit, b[|TIME| + 1..])
  {
    var to := |TIME| + 1 + Span(IsDigit, b[|TIME| + 1..]);
    assert b'[..to] == b[..n][..to] == b[..to];
    assert to < n ==> b'[to] == b[..n][to] == b[to];
    SpanAgrees(IsDigit, b, b', |TIME| + 1);
  }

  lemma TimeIsStable(b: string, n: nat, b': string)
    requires CutByEllipsis(b, n, b') && HasForm(TIME, b)
    requires |TIME| + FractionLen(b[|TIME|..]) <= n
    requires |TIME| + FractionLen(b[|TIME|..]) < n ==> IsSpace(b[|TIME| + FractionLen(b[|TIME|..])])
    ensures HasForm(TIME, b') && FractionLen(b'[|TIME|..]) == FractionLen(b[|TIME|..])
  {
    FormIsStable(TIME, b, n, b');
    FractionAt(b);
    FractionAt(b');
    if FractionLen(b[|TIME|..]) > 0 {
      assert b'[|TIME|] == b[..n][|TIME|] == b[|TIME|];
      FractionIsStable(b, n, b');
    } else if n > |TIME| {
      assert b'[|TIME|] == b[..n][|TIME|] == b[|TIME|];
    }
  }

  /** A tag opens with a bracket, the two stamps differ in their third character. */
  lemma FormsAreDisjoint(b: string)
    ensures HasForm(DATE_TIME, b) || HasForm(TIME, b) ==> TagLen(b) == 0
    ensures HasForm(TIME, b) ==> !HasForm(DATE_TIME, b)
  {
    if HasForm(TIME, b) {
      assert TIME[2] == ':' && DATE_TIME[2] == '0' && TIME[0] == '0';
    }
    if HasForm(DATE_TIME, b) {
      assert DATE_TIME[0] == '0';
    }
  }

  lemma StampLenIsStable(b: string, n: nat, b': string)
    requires 0 < n == PrefixLen(b) && (HasForm(DATE_TIME, b) ==> n > StampLen(b)) && CutByEllipsis(b, n, b')
    ensures StampLen(b') == StampLen(b) && (HasForm(DATE_TIME, b') ==> HasForm(DATE_TIME, b))
  {
    FormsAreDisjoint(b);
    FormsAreDisjoint(b');
    if TagLen(b) > 0 {
      TagIsStable(b, n, b');
    } else if HasForm(DATE_TIME, b) {
      DateIsStable(b, n, b');
    } else {
      assert n > StampLen(b) ==> b[StampLen(b)..][0] == b[StampLen(b)];
      TimeIsStable(b, n, b');
    }
  }

  /** Put after its own prefix, an ellipsis leaves the stamp and its space what they were. */
  lemma StampIsStable(b: string, n: nat, b': string)
    requires 0 < n == PrefixLen(b) && (HasForm(DATE_TIME, b) ==> n > StampLen(b)) && CutByEllipsis(b, n, b')
    ensures PrefixLen(b') == n
    ensures HasForm(DATE_TIME, b') ==> n > StampLen(b')
  {
    StampLenIsStable(b, n, b');
    SpanAgrees(IsSpace, b, b', StampLen(b));
  }

  /** The marker made from a prefix has that prefix. */
  lemma PrefixIsStable(c: string, k: string, tail: string)
    requires LinePrefix(c) == Some(k) && !EndsAtStamp(c)
    ensures LinePrefix(k + ([ELLIPSIS] + tail)) == Some(k) && !EndsAtStamp(k + ([ELLIPSIS] + tail))
  {
    var c' := k + ([ELLIPSIS] + tail);
    var indent := Span(IsBlank, c);
    var b, b', n := c[indent..], c'[indent..], |k| - indent;
    IndentIsStable(c, k, c');
    assert k == c'[..|k|];
    assert b'[..n] == k[indent..] == b[..n];
    StampIsStable(b, n, b');
  }

  lemma IndentIsStable(c: string, k: string, c': string)
    requires LinePrefix(c) == Some(k) && |k| < |c'| && c'[..|k|] == k
    ensures Span(IsBlank, c') == Span(IsBlank, c)
  {
    var indent := Span(IsBlank, c);
    assert k == c[..|k|] && indent < |k|;
    assert c'[..indent] == k[..indent] == c[..indent];
    assert c'[indent] == k[indent] == c[indent];
    assert c[0..] == c && c'[0..] == c';
    SpanAgrees(IsBlank, c, c', 0);
  }

  lemma PlainLiterals()
    ensures NoBreaks(BEFORE) && NoBreaks(AFTER)
  {
  }

  lemma MarkerTextIsPlain(repr: string -> string, k: string, n: nat)
    requires PlainRepr(repr) && NoBreaks(k)
    ensures var text := MarkerText(repr, k, n);
            NoBreaks(text) && |text| > |k| && text == k + ([ELLIPSIS] + text[|k| + 1..])
  {
    PlainLiterals();
    NoBreaksInNumbered(BEFORE, n, AFTER);
    NoBreaksInAppend(k, Numbered(BEFORE, n, AFTER));
    assert NoBreaks(repr(Strip(k)));
    NoBreaksInAppend(k + Numbered(BEFORE, n, AFTER), repr(Strip(k)));
    NoBreaksInAppend(k + Numbered(BEFORE, n, AFTER) + repr(Strip(k)), ")");
    assert MarkerText(repr, k, n)[|k|] == BEFORE[0];
  }

  lemma SpanEnds(p: char -> bool, b: string, from: nat)
    requires from <= |b|
    ensures var to := from + Span(p, b[from..]); to <= |b| && (to < |b| ==> !p(b[to]))
  {
    var rest := b[from..];
    var m := Span(p, rest);
    assert m < |rest| ==> rest[m] == b[from + m];
  }

  lemma SpanStarts(p: char -> bool, b: string, from: nat)
    requires from < |b| && p(b[from])
    ensures Span(p, b[from..]) > 0
  {
  }

  lemma StampToTheEnd(b: string, n: nat)
    requires |DATE_TIME| <= |b| && n == |DATE_TIME| + Span(NotSpace, b[|DATE_TIME|..])
    requires n <= |b| && Span(IsSpace, b[n..]) == 0
    ensures n == |b|
  {
    SpanEnds(NotSpace, b, |DATE_TIME|);
    if n < |b| {
      SpanStarts(IsSpace, b, n);
    }
  }

  /** A bare date and time runs to the end of the line. */
  lemma BareStampIsAll(c: string, k: string)
    requires LinePrefix(c) == Some(k) && EndsAtStamp(c)
    ensures k == c && TagLen(c[Span(IsBlank, c)..]) == 0
  {
    var indent := Span(IsBlank, c);
    var b := c[indent..];
    FormsAreDisjoint(b);
    StampToTheEnd(b, StampLen(b));
    assert |k| == |c| && k == c[..|c|];
  }

  /** What the marker of a bare date and time opens with. */
  function MarkerPrefix(k: string): string {
    k + [ELLIPSIS, ' ']
  }

  /** The ellipsis joins the stamp, and the blank behind it ends it. */
  lemma StampGrows(b: string, tail: string)
    requires HasForm(DATE_TIME, b) && PrefixLen(b) == StampLen(b) == |b|
    requires tail != "" && !IsSpace(tail[0])
    ensures var b' := b + [ELLIPSIS, ' '] + tail; HasForm(DATE_TIME, b') && PrefixLen(b') == |b| + 2
  {
    var b' := b + [ELLIPSIS, ' '] + tail;
    var to := |b| + 1;
    FormsAreDisjoint(b);
    assert forall i | 0 <= i < |DATE_TIME| :: b'[i] == b[i];
    FormsAreDisjoint(b');
    var x, y := b[|DATE_TIME|..], b'[|DATE_TIME|..];
    assert x[..|x|] == x;
    assert y[..|x|] == x && y[|x|] == ELLIPSIS && y[|x| + 1] == ' ';
    SpanUnique(NotSpace, y, |x| + 1);
    var z := b'[to..];
    assert z[0] == ' ' && z[1] == tail[0];
    SpanUnique(IsSpace, z, 1);
  }

  lemma PrefixOfMarker(k: string, tail: string, i: nat)
    requires i <= |k|
    ensures var c := MarkerPrefix(k) + tail;
            c[..|k|] == k && c[..|k| + 2] == MarkerPrefix(k) && c[i..] == k[i..] + [ELLIPSIS, ' '] + tail
  {
  }

  lemma PrefixGrows(c: string, k: string, tail: string)
    requires LinePrefix(c) == Some(k) && EndsAtStamp(c) && tail != "" && !IsSpace(tail[0])
    ensures LinePrefix(MarkerPrefix(k) + tail) == Some(MarkerPrefix(k))
  {
    var c' := MarkerPrefix(k) + tail;
    var indent := Span(IsBlank, c);
    BareStampIsAll(c, k);
    PrefixOfMarker(k, tail, indent);
    IndentIsStable(c, k, c');
    StampGrows(c[indent..], tail);
  }

  function MarkerKey(c: string, k: string): string {
    if EndsAtStamp(c) then MarkerPrefix(k) else k
  }

  lemma MarkerOpens(repr: string -> string, k: string, n: nat) returns (tail: string)
    ensures MarkerText(repr, k, n) == MarkerPrefix(k) + tail && tail != "" && tail[0] == '('
  {
    var rest := Dec(n) + AFTER + repr(Strip(k)) + ")";
    tail := "(" + rest;
    assert BEFORE == [ELLIPSIS, ' '] + "(";
    RegroupAll(k, [ELLIPSIS, ' '], "(", Dec(n), AFTER, repr(Strip(k)), ")");
  }

  lemma RegroupAll(k: string, a: string, b: string, d: string, c: string, r: string, e: string)
    ensures k + (a + b + d + c) + r + e == (k + a) + (b + (d + c + r + e))
  {
  }

  lemma MarkerTextKey(repr: string -> string, c: string, k: string, n: nat)
    requires LinePrefix(c) == Some(k) && |MarkerText(repr, k, n)| > |k|
    requires MarkerText(repr, k, n) == k + ([ELLIPSIS] + MarkerText(repr, k, n)[|k| + 1..])
    ensures LinePrefix(MarkerText(repr, k, n)) == Some(MarkerKey(c, k))
  {
    if EndsAtStamp(c) {
      var tail := MarkerOpens(repr, k, n);
      PrefixGrows(c, k, tail);
    } else {
      PrefixIsStable(c, k, MarkerText(repr, k, n)[|k| + 1..]);
    }
  }

  /** A break in a prefix is its last character, one other than "\r" and "\n", and the line is nothing else. */
  lemma BrokenPrefixIsAll(a: string, k: string)
    requires IsLine(a) && Key(a) == Some(k) && !NoBreaks(k)
    ensures k == a == Content(a) && EolFor(a) == "\n" && EndsInBreak(a)
  {
    var c := Content(a);
    var i :| 0 <= i < |k| && IsBreak(k[i]);
    assert k == c[..|k|] && c == a[..|c|];
    assert k[i] == c[i] == a[i];
    BreakEndsLine(a, i);
    ContentEndsPlain(a);
    assert c[|c| - 1] == a[|c| - 1];
  }

  predicate EndsInBreak(l: string) {
    l != "" && IsBreak(l[|l| - 1])
  }

  /** The marker of a line whose prefix has no break is again a line; its prefix is that of the line, unless
      that is a bare date and time. */
  lemma MarkerIsFoldable(repr: string -> string, a: string, k: string, run: nat)
    requires PlainRepr(repr) && IsLine(a) && Key(a) == Some(k) && NoBreaks(k)
    ensures var m := Marker(repr, a, k, run);
            IsLine(m) && Key(m) == Some(MarkerKey(Content(a), k)) && EndsInBreak(m) && m[0] != '\n'
    ensures EndsInReturn(Marker(repr, a, k, run)) ==> EndsInReturn(a)
    ensures Content(Marker(repr, a, k, run)) == MarkerText(repr, k, if run == 0 then 0 else run - 1)
  {
    var n := if run == 0 then 0 else run - 1;
    var text := MarkerText(repr, k, n);
    MarkerTextIsPlain(repr, k, n);
    MarkerTextKey(repr, Content(a), k, n);
    MarkerLine(text, a);
  }

  /** What follows the prefix in a marker. */
  function MarkerTail(repr: string -> string, k: string, n: nat): string {
    Numbered(BEFORE, n, AFTER) + repr(Strip(k)) + ")"
  }

  lemma TailIsPlain(repr: string -> string, k: string, n: nat)
    requires PlainRepr(repr)
    ensures var tail := MarkerTail(repr, k, n);
            NoBreaks(tail) && tail != "" && tail[0] == ELLIPSIS && MarkerText(repr, k, n) == k + tail
  {
    PlainLiterals();
    NoBreaksInNumbered(BEFORE, n, AFTER);
    assert NoBreaks(repr(Strip(k)));
    NoBreaksInAppend(Numbered(BEFORE, n, AFTER), repr(Strip(k)));
    NoBreaksInAppend(Numbered(BEFORE, n, AFTER) + repr(Strip(k)), ")");
    Regroup(k, Numbered(BEFORE, n, AFTER), repr(Strip(k)));
    Regroup(k, Numbered(BEFORE, n, AFTER) + repr(Strip(k)), ")");
  }

  /** The second line of a marker with a break in its prefix. */
  lemma TailHasNoPrefix(tail: string)
    requires NoBreaks(tail) && tail != "" && tail[0] == ELLIPSIS
    ensures IsLine(tail + "\n") && Key(tail + "\n") == None
  {
    LineLenOfPlain(tail, "\n");
    assert tail[|tail| - 1] !in "\r\n";
    ContentOfAppend(tail, "\n");
    SpanUnique(IsBlank, tail, 0);
    assert tail[0..] == tail;
  }

  /** The marker of a line whose prefix has a break is that line and another one without a prefix. */
  lemma MarkerIsTwoLines(repr: string -> string, a: string, k: string, run: nat) returns (tail: string)
    requires PlainRepr(repr) && IsLine(a) && Key(a) == Some(k) && !NoBreaks(k)
    ensures SplitLines(Marker(repr, a, k, run)) == [a, tail] && Key(tail) == None && k == a
    ensures var m := Marker(repr, a, k, run); m != "" && m[|m| - 1] == '\n' && m[0] != '\n'
  {
    var n := if run == 0 then 0 else run - 1;
    BrokenPrefixIsAll(a, k);
    TailIsPlain(repr, k, n);
    TailHasNoPrefix(MarkerTail(repr, k, n));
    tail := MarkerTail(repr, k, n) + "\n";
    Regroup(k, MarkerTail(repr, k, n), "\n");
    assert LinesOfText([a, tail]);
    JoinOfTwo(a, tail);
    SplitOfJoin([a, tail]);
    PrefixStart(Content(a), k);
  }

  lemma JoinOfTwo(a: string, b: string)
    ensures Join([a, b]) == a + b
  {
    assert [a, b] == [a] + ([b] + []);
    JoinOfCons(a, [b] + []);
    JoinOfCons(b, []);
    assert b + "" == b;
  }

  lemma PrefixStart(c: string, k: string)
    requires LinePrefix(c) == Some(k)
    ensures k != "" && k[0] != '\n'
  {
    var indent := Span(IsBlank, c);
    assert indent > 0 ==> IsBlank(c[..indent][0]);
    FormStarts(c[indent..]);
    assert indent == 0 ==> c[indent..] == c;
  }

  lemma FormStarts(b: string)
    requires StampLen(b) > 0
    ensures b != "" && b[0] != '\n'
  {
    assert DATE_TIME[0] == '0' && TIME[0] == '0';
  }

  lemma LogRuleByKey(repr: string -> string)
    ensures ByKey(LogRule(repr))
  {
    var rule := LogRule(repr);
    forall k, l ensures rule.same(k, l) <==> rule.key(l) == Some(k) {
      assert rule.same(k, l) == Same(k, l);
    }
  }

  lemma LogCloses(repr: string -> string)
    requires PlainRepr(repr)
    ensures Closes(LogRule(repr))
  {
    assert Content("\n") == Content("") == "";
    assert LogRule(repr).key("\n") == None;
    forall a, k, n: nat | IsLine(a) && Key(a) == Some(k) ensures IsClosing(Marker(repr, a, k, n), a) {
      MarkerCloses(repr, a, k, n);
    }
  }

  lemma MarkerCloses(repr: string -> string, a: string, k: string, n: nat)
    requires PlainRepr(repr) && IsLine(a) && Key(a) == Some(k)
    ensures IsClosing(Marker(repr, a, k, n), a)
  {
    if NoBreaks(k) {
      MarkerIsFoldable(repr, a, k, n);
      OneLine(Marker(repr, a, k, n));
    } else {
      var tail := MarkerIsTwoLines(repr, a, k, n);
    }
  }

  /** How many lines with prefix `k` open what is shown of `s`: kept ones, and of a folded run its first line
      and its marker, if that has the prefix, with what comes behind. */
  function ShownRun(rule: Rule, k: string, s: seq<string>): nat {
    if s == [] || rule.key(s[0]) != Some(k) then 0
    else if !FoldsAt(rule, s) then 1 + ShownRun(rule, k, s[1..])
    else if !NoBreaks(k) then 2
    else if EndsAtStamp(Content(s[0])) then 1
    else 2 + ShownRun(rule, k, s[Taken(rule, s)..])
  }

  /** The run at the head is folded, and with the lines that open what is shown of the rest its marker makes
      up a run again: the marker of a bare date and time has a prefix of its own and needs four such lines;
      any other has the prefix of its run and needs three, which a blank line that the marker took away
      used to keep apart. */
  predicate ReopensAtHead(rule: Rule, s: seq<string>)
    requires s != []
  {
    FoldsAt(rule, s) &&
    var k, rest := rule.key(s[0]).value, s[Taken(rule, s)..];
    NoBreaks(k) && (if EndsAtStamp(Content(s[0])) then 4 <= ShownRun(rule, MarkerPrefix(k), rest)
                    else 3 <= ShownRun(rule, k, rest))
  }

  predicate Reopens(repr: string -> string, s: seq<string>) {
    var rule := LogRule(repr);
    s != [] && (ReopensAtHead(rule, s) || Reopens(repr, s[Taken(rule, s)..]))
  }

  /** The lines shown for a folded run: its first line and the marker, of which the prefix is known; or with
      a break in the prefix that line twice and one without a prefix. */
  lemma FoldedShape(repr: string -> string, s: seq<string>) returns (g: string)
    requires PlainRepr(repr) && s != [] && IsLine(s[0]) && FoldsAt(LogRule(repr), s)
    ensures var rule, k := LogRule(repr), LogRule(repr).key(s[0]).value;
            if NoBreaks(k) then
              ShownLines(rule, s) == [s[0], g] && rule.key(g) == Some(MarkerKey(Content(s[0]), k))
            else
              ShownLines(rule, s) == [s[0], s[0], g] && rule.key(g) == None
  {
    var rule := LogRule(repr);
    var a, k, n := s[0], rule.key(s[0]).value, RunAt(rule, s);
    assert HeadMarker(rule, s) == Marker(repr, a, k, n);
    if NoBreaks(k) {
      MarkerIsFoldable(repr, a, k, n);
      g := TwoAreShown(rule, s);
      assert rule.key(g) == Key(g) == Key(Marker(repr, a, k, n));
    } else {
      g := MarkerIsTwoLines(repr, a, k, n);
      ThreeAreShown(rule, s, a, g);
    }
  }

  // ---- the lines of the output ------------------------------------------------------------

  lemma MarkerKeyOther(c: string, k: string)
    ensures MarkerKey(c, k) == k <==> !EndsAtStamp(c)
  {
    assert |MarkerPrefix(k)| == |k| + 2;
  }

  lemma ThreeLines(a: string, b: string, c: string, rest: seq<string>)
    ensures var out := [a, b, c] + rest; out[1..] == [b, c] + rest && out[2..] == [c] + rest && out[3..] == rest
    ensures ([b, c] + rest)[1..] == [c] + rest && ([c] + rest)[1..] == rest
  {
  }

  lemma FoldedFollowers(repr: string -> string, k: string, s: seq<string>)
    requires PlainRepr(repr) && s != [] && IsLine(s[0])
    requires FoldsAt(LogRule(repr), s) && LogRule(repr).key(s[0]) == Some(k)
    ensures var rule := LogRule(repr);
            var rest := TextLines(rule, s[Taken(rule, s)..]);
            Followers(rule, k, TextLines(rule, s))
            == if !NoBreaks(k) then 2 else if EndsAtStamp(Content(s[0])) then 1 else 2 + Followers(rule, k, rest)
  {
    var rule := LogRule(repr);
    var rest := TextLines(rule, s[Taken(rule, s)..]);
    var g := FoldedShape(repr, s);
    LogRuleByKey(repr);
    MarkerKeyOther(Content(s[0]), k);
    if NoBreaks(k) {
      FollowersOfTwo(rule, k, s[0], g, rest);
    } else {
      FollowersOfThree(rule, k, s[0], g, rest);
    }
  }

  lemma FollowersOfTwo(rule: Rule, k: string, a: string, g: string, rest: seq<string>)
    requires ByKey(rule) && rule.key(a) == Some(k)
    ensures Followers(rule, k, [a, g] + rest) == if rule.key(g) == Some(k) then 2 + Followers(rule, k, rest) else 1
  {
    TwoInFront(a, g, rest);
    assert ([g] + rest)[1..] == rest;
  }

  lemma FollowersOfThree(rule: Rule, k: string, a: string, g: string, rest: seq<string>)
    requires ByKey(rule) && rule.key(a) == Some(k) && rule.key(g) == None
    ensures Followers(rule, k, [a, a, g] + rest) == 2
  {
    FollowersAre(rule, k, [a, a, g] + rest, 2);
  }

  lemma {:induction false} FollowersOfOutput(repr: string -> string, k: string, s: seq<string>)
    requires PlainRepr(repr) && forall l | l in s :: IsLine(l)
    ensures Followers(LogRule(repr), k, TextLines(LogRule(repr), s)) == ShownRun(LogRule(repr), k, s)
    decreases |s|
  {
    var rule := LogRule(repr);
    LogRuleByKey(repr);
    if s != [] {
      FirstIsShown(rule, s);
      if rule.key(s[0]) == Some(k) {
        FollowersOfOutput(repr, k, s[Taken(rule, s)..]);
        if FoldsAt(rule, s) {
          assert IsLine(s[0]);
          FoldedFollowers(repr, k, s);
        }
      }
    }
  }

  lemma TwoLinesSettle(rule: Rule, a: string, g: string, rest: seq<string>, k: string, k': string)
    requires ByKey(rule) && rule.least == 5 && rule.key(a) == Some(k) && rule.key(g) == Some(k')
    ensures Settled(rule, [a, g] + rest)
       <==> Settled(rule, rest) && (if k' == k then Followers(rule, k, rest) < 3 else Followers(rule, k', rest) < 4)
  {
    TwoInFront(a, g, rest);
    SettledTail(rule, [a, g] + rest);
    SettledTail(rule, [g] + rest);
    assert ([g] + rest)[1..] == rest;
  }

  lemma ThreeLinesSettle(rule: Rule, a: string, g: string, rest: seq<string>)
    requires ByKey(rule) && rule.least == 5 && rule.key(g) == None
    ensures Settled(rule, [a, a, g] + rest) <==> Settled(rule, rest)
  {
    ThreeLines(a, a, g, rest);
    SettledTail(rule, [a, a, g] + rest);
    SettledTail(rule, [a, g] + rest);
    SettledTail(rule, [g] + rest);
  }

  lemma FoldedSettles(repr: string -> string, s: seq<string>)
    requires PlainRepr(repr) && (forall l | l in s :: IsLine(l)) && s != [] && FoldsAt(LogRule(repr), s)
    ensures var rule := LogRule(repr);
            Settled(rule, TextLines(rule, s))
            <==> !ReopensAtHead(rule, s) && Settled(rule, TextLines(rule, s[Taken(rule, s)..]))
  {
    var rule := LogRule(repr);
    var k, rest := rule.key(s[0]).value, s[Taken(rule, s)..];
    LogRuleByKey(repr);
    assert IsLine(s[0]);
    var g := FoldedShape(repr, s);
    if NoBreaks(k) {
      var k' := MarkerKey(Content(s[0]), k);
      MarkerKeyOther(Content(s[0]), k);
      FollowersOfOutput(repr, k', rest);
      TwoLinesSettle(rule, s[0], g, TextLines(rule, rest), k, k');
    } else {
      ThreeLinesSettle(rule, s[0], g, TextLines(rule, rest));
    }
  }

  lemma HeadSettles(repr: string -> string, s: seq<string>)
    requires PlainRepr(repr) && (forall l | l in s :: IsLine(l)) && s != []
    ensures var rule := LogRule(repr);
            Settled(rule, TextLines(rule, s))
            <==> !ReopensAtHead(rule, s) && Settled(rule, TextLines(rule, s[Taken(rule, s)..]))
  {
    if FoldsAt(LogRule(repr), s) {
      FoldedSettles(repr, s);
    } else {
      LogRuleByKey(repr);
      KeptSettles(LogRule(repr), s);
    }
  }

  lemma {:induction false} OutputSettlesIff(repr: string -> string, s: seq<string>)
    requires PlainRepr(repr) && forall l | l in s :: IsLine(l)
    ensures Settled(LogRule(repr), TextLines(LogRule(repr), s)) <==> !Reopens(repr, s)
    decreases |s|
  {
    if s != [] {
      HeadSettles(repr, s);
      OutputSettlesIff(repr, s[Taken(LogRule(repr), s)..]);
    }
  }

  lemma LogTextSettlesIff(repr: string -> string, t: string)
    requires PlainRepr(repr)
    ensures Settled(LogRule(repr), SplitLines(LogText(repr, t))) <==> !Reopens(repr, SplitLines(t))
  {
    var rule, s := LogRule(repr), SplitLines(t);
    SplitGivesLines(t);
    LogCloses(repr);
    OutputSplits(rule, s);
    OutputSettlesIff(repr, s);
  }

  /** Main result: on every text a second pass does nothing exactly if no marker makes up a run with the
      lines shown behind it. */
  lemma LogFoldIsIdempotentIff(repr: string -> string, t: string)
    requires PlainRepr(repr)
    ensures LogText(repr, LogText(repr, t)) == LogText(repr, t) <==> !Reopens(repr, SplitLines(t))
  {
    var y := LogText(repr, t);
    LogTextSettlesIff(repr, t);
    LogCloses(repr);
    SplitGivesLines(y);
    JoinOfSplit(y);
    TextIsFixedIff(LogRule(repr), SplitLines(y));
  }

  // ---- and when it does something ---------------------------------------------------------

  /** The whole of the line is a date and time. */
  predicate IsBareStamp(c: string) {
    NoBreaks(c) && LinePrefix(c) == Some(c) && EndsAtStamp(c)
  }

  /** A line behind the run that goes with its marker. */
  function Straggler(c: string): string {
    MarkerPrefix(c) + "x"
  }

  lemma PlainLine(c: string)
    requires NoBreaks(c) && c != ""
    ensures IsLine(c + "\n") && Content(c + "\n") == c
  {
    MarkerLine(c, "\n");
  }

  lemma StragglerFacts(c: string)
    requires IsBareStamp(c)
    ensures NoBreaks(Straggler(c)) && LinePrefix(Straggler(c)) == Some(MarkerPrefix(c)) && MarkerPrefix(c) != c
  {
    PrefixGrows(c, c, "x");
    NoBreaksInAppend(c, [ELLIPSIS, ' ']);
    NoBreaksInAppend(MarkerPrefix(c), "x");
  }

  function ReopeningText(c: string): string {
    Join(Copies(c + "\n", 5) + Copies(Straggler(c) + "\n", 4))
  }

  lemma ReopeningLines(c: string)
    requires IsBareStamp(c)
    ensures SplitLines(ReopeningText(c)) == Copies(c + "\n", 5) + Copies(Straggler(c) + "\n", 4)
  {
    StragglerFacts(c);
    PlainLine(c);
    PlainLine(Straggler(c));
    BlocksSplit(c + "\n", 5, Straggler(c) + "\n", 4);
  }

  lemma ReopeningKeys(repr: string -> string, c: string)
    requires IsBareStamp(c)
    ensures ByKey(LogRule(repr)) && LogRule(repr).key(c + "\n") == Some(c) && EndsAtStamp(Content(c + "\n"))
    ensures LogRule(repr).key(Straggler(c) + "\n") == Some(MarkerPrefix(c)) && MarkerPrefix(c) != c
  {
    StragglerFacts(c);
    PlainLine(c);
    PlainLine(Straggler(c));
    LogRuleByKey(repr);
  }

  lemma {:induction false} FewAreShown(rule: Rule, y: string, k: string, n: nat)
    requires ByKey(rule) && rule.key(y) == Some(k) && n < rule.least
    ensures ShownRun(rule, k, Copies(y, n)) == n
  {
    if n > 0 {
      assert Copies(y, n)[1..] == Copies(y, n - 1);
      FewAreShown(rule, y, k, n - 1);
    }
  }

  lemma BlocksReopen(rule: Rule, x: string, y: string, k: string)
    requires ByKey(rule) && rule.least == 5 && rule.key(x) == Some(k) && NoBreaks(k) && EndsAtStamp(Content(x))
    requires rule.key(y) == Some(MarkerPrefix(k)) && MarkerPrefix(k) != k && y != "\n"
    ensures ReopensAtHead(rule, Copies(x, 5) + Copies(y, 4))
  {
    var b := Copies(y, 4);
    var s := Copies(x, 5) + b;
    FollowersAre(rule, k, s[1..], 4);
    FewAreShown(rule, y, MarkerPrefix(k), 4);
    assert s[5] == y && s[5..] == b;
  }

  /** Main result: for every bare date and time there is a text on which the second pass folds again. */
  lemma LogFoldIsNotIdempotent(repr: string -> string, c: string)
    requires PlainRepr(repr) && IsBareStamp(c)
    ensures var t := ReopeningText(c); LogText(repr, LogText(repr, t)) != LogText(repr, t)
  {
    ReopeningLines(c);
    ReopeningKeys(repr, c);
    BlocksReopen(LogRule(repr), c + "\n", Straggler(c) + "\n", c);
    LogFoldIsIdempotentIff(repr, ReopeningText(c));
  }

  /** Such as a date and time without fraction or zone. */
  lemma DateTimeIsBare(c: string)
    requires HasForm(DATE_TIME, c) && |c| == |DATE_TIME| && NoBreaks(c)
    ensures IsBareStamp(c)
  {
    assert DATE_TIME[0] == '0' && IsDigit(c[0]);
    SpanUnique(IsBlank, c, 0);
    assert c[0..] == c && c[..|c|] == c && c[|c|..] == "" && c[|DATE_TIME|..] == "";
    FormsAreDisjoint(c);
  }
}
