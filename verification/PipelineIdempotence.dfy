/**
  Idempotence of the base pipeline on texts in which no carriage return comes before a line feed: the
  passes do not undo each other's fixpoints, and the guard decides a second time as it did the first time.
 */
module PipelineIdempotence {
  import opened Driver
  import opened RunFold
  import opened Substitution
  import opened Text
  import opened Wrappers
  import CollapseBlanks
  import Dedup
  import HexDump
  import RuleRuns
  import TrailingWs

  // ---- patterns that stay within a line ---------------------------------------------------

  predicate EndsLine(x: string) {
    x != "" && IsBreak(x[|x| - 1])
  }

  /** Whether the pattern matches is decided before the end of the line. */
  ghost predicate LineLocal(m: Pattern) {
    forall x, y | EndsLine(x) && NoCrLfBetween(x, y) :: Matches(m, x + y) <==> Matches(m, x)
  }

  lemma {:induction false} NoMatchInAppend(m: Pattern, x: string, y: string)
    requires LineLocal(m) && (x == "" || EndsLine(x)) && NoCrLfBetween(x, y)
    ensures NoMatch(m, x + y) <==> NoMatch(m, x) && NoMatch(m, y)
  {
    if x == "" {
      assert x + y == y;
    } else {
      assert (x + y)[1..] == x[1..] + y;
      NoMatchInAppend(m, x[1..], y);
    }
  }

  lemma LinesApart(ls: seq<string>)
    requires LinesOfText(ls) && |ls| > 1
    ensures EndsLine(ls[0]) && NoCrLfBetween(ls[0], Join(ls[1..])) && LinesOfText(ls[1..])
  {
    assert Follows(ls[0], ls[1]);
    LinesTail(ls, 1);
    JoinedStart(ls[1..]);
  }

  lemma {:induction false} NoMatchByLine(m: Pattern, ls: seq<string>)
    requires LineLocal(m) && LinesOfText(ls)
    ensures NoMatch(m, Join(ls)) <==> forall l | l in ls :: NoMatch(m, l)
  {
    if ls == [] {
    } else if |ls| == 1 {
      assert Join(ls) == ls[0] + Join([]) == ls[0];
    } else {
      LinesApart(ls);
      NoMatchInAppend(m, ls[0], Join(ls[1..]));
      NoMatchByLine(m, ls[1..]);
      assert ls == [ls[0]] + ls[1..];
    }
  }

  lemma {:induction false} SpanInLine(p: char -> bool, x: string, y: string)
    requires EndsLine(x) && !p(x[|x| - 1])
    ensures Span(p, x) < |x| && Span(p, x + y) == Span(p, x)
  {
    var k := Span(p, x);
    assert x[..|x|] == x;
    assert (x + y)[..k] == x[..k];
    SpanUnique(p, x + y, k);
  }

  lemma TrailingIsLocal()
    ensures LineLocal(TrailingWs.TrailingLen)
  {
    forall x, y | EndsLine(x) && NoCrLfBetween(x, y)
      ensures Matches(TrailingWs.TrailingLen, x + y) <==> Matches(TrailingWs.TrailingLen, x)
    {
      SpanInLine(IsBlank, x, y);
    }
  }

  lemma {:induction false} RunInLine(x: string, y: string)
    requires EndsLine(x) && !IsBreak(x[0])
    ensures RuleRuns.RunLen(x + y) == RuleRuns.RunLen(x)
  {
    assert |x| > 1;
    assert (x + y)[1] == x[1] && (x + y)[1..] == x[1..] + y;
    if x[1] == x[0] {
      RunInLine(x[1..], y);
    }
  }

  lemma RuleIsLocal()
    ensures LineLocal(RuleRuns.RuleLen)
  {
    forall x, y | EndsLine(x) && NoCrLfBetween(x, y)
      ensures Matches(RuleRuns.RuleLen, x + y) <==> Matches(RuleRuns.RuleLen, x)
    {
      assert (x + y)[0] == x[0];
      if !IsBreak(x[0]) {
        RunInLine(x, y);
      }
    }
  }

  lemma DumpIsLocal()
    ensures LineLocal(HexDump.DumpLen)
  {
    forall x, y | EndsLine(x) && NoCrLfBetween(x, y)
      ensures Matches(HexDump.DumpLen, x + y) <==> Matches(HexDump.DumpLen, x)
    {
      var s, last := x + y, |x| - 1;
      assert s[last] == x[last] && !HexDump.IsHexOrSpace(s[last]);
      if Matches(HexDump.DumpLen, s) {
        HexDump.DumpIsHex(s);
        assert last >= HexDump.DumpLen(s) && s[..95] == x[..95];
        HexDump.DumpInPrefix(s, x);
      }
      if Matches(HexDump.DumpLen, x) {
        HexDump.DumpIsHex(x);
        assert s[..95] == x[..95];
        HexDump.DumpInPrefix(x, s);
      }
    }
  }

  // ---- stripped texts stay stripped -------------------------------------------------------

  /** No blank is before a line feed or at the end: the same as `NoMatch(TrailingLen, t)` where there is no
      "\r\n". */
  predicate Stripped(t: string) {
    forall i | 0 <= i < |t| && IsBlank(t[i]) :: i + 1 < |t| && t[i + 1] != '\n'
  }

  lemma {:induction false} StrippedIff(t: string)
    requires NoCrLf(t)
    ensures NoMatch(TrailingWs.TrailingLen, t) <==> Stripped(t)
  {
    if t != "" {
      var rest := t[1..];
      assert forall i | 0 <= i < |rest| :: rest[i] == t[i + 1];
      StrippedIff(rest);
      StrippedTail(t);
      HeadIsTrailing(t);
    }
  }

  lemma StrippedTail(t: string)
    requires t != ""
    ensures Stripped(t) <==> Stripped(t[1..]) && (IsBlank(t[0]) ==> |t| > 1 && t[1] != '\n')
  {
    var rest := t[1..];
    if Stripped(t) {
      forall i | 0 <= i < |rest| && IsBlank(rest[i]) ensures i + 1 < |rest| && rest[i + 1] != '\n' {
        assert rest[i] == t[i + 1];
      }
    }
    if Stripped(rest) && (IsBlank(t[0]) ==> |t| > 1 && t[1] != '\n') {
      forall i | 0 <= i < |t| && IsBlank(t[i]) ensures i + 1 < |t| && t[i + 1] != '\n' {
        if i > 0 {
          assert rest[i - 1] == t[i];
          assert i < |rest| && rest[i] == t[i + 1];
        }
      }
    }
  }

  lemma HeadIsTrailing(t: string)
    requires t != "" && NoCrLf(t)
    ensures Stripped(t) ==> !Matches(TrailingWs.TrailingLen, t)
    ensures !Matches(TrailingWs.TrailingLen, t) && IsBlank(t[0]) ==> |t| > 1 && t[1] != '\n'
  {
    var k := Span(IsBlank, t);
    if k > 0 {
      assert IsBlank(t[..k][k - 1]);
      assert k > 1 ==> IsBlank(t[..k][1]);
    }
  }

  /** Replacements that neither start nor end a line with blanks or breaks. */
  ghost predicate Unobtrusive(m: Pattern, r: string -> string) {
    forall s | Matches(m, s) ::
      var x := r(s[..m(s)]); x != "" && x[0] != '\n' && NoReturnIn(x) && Stripped(x)
  }

  predicate NoReturnIn(x: string) {
    forall i | 0 <= i < |x| :: x[i] != '\r'
  }

  lemma {:induction false} SubKeepsNoCrLf(m: Pattern, r: string -> string, t: string)
    requires Unobtrusive(m, r) && NoCrLf(t)
    ensures NoCrLf(Sub(m, r, t))
    ensures t != "" ==> Sub(m, r, t) != "" && (Sub(m, r, t)[0] == '\n' ==> t[0] == '\n')
    decreases |t|
  {
    if t != "" {
      var k := if Matches(m, t) then m(t) else 1;
      var rest, x := Sub(m, r, t[k..]), if Matches(m, t) then r(t[..k]) else [t[0]];
      assert forall i | 0 <= i < |t| - k :: t[k..][i] == t[k + i];
      SubKeepsNoCrLf(m, r, t[k..]);
      assert Matches(m, t) ==> NoReturnIn(x);
      NoCrLfInAppend(x, rest);
    }
  }

  lemma {:induction false} SubKeepsStripped(m: Pattern, r: string -> string, t: string)
    requires Unobtrusive(m, r) && Stripped(t)
    ensures Stripped(Sub(m, r, t))
    ensures t != "" ==> Sub(m, r, t) != "" && (Sub(m, r, t)[0] == '\n' ==> t[0] == '\n')
    decreases |t|
  {
    if t == "" {
    } else if Matches(m, t) {
      var x := r(t[..m(t)]);
      StrippedSuffix(t, m(t));
      SubKeepsStripped(m, r, t[m(t)..]);
      StrippedAppend(x, Sub(m, r, t[m(t)..]));
    } else {
      var rest := Sub(m, r, t[1..]);
      StrippedTail(t);
      SubKeepsStripped(m, r, t[1..]);
      assert ([t[0]] + rest)[1..] == rest;
      StrippedTail([t[0]] + rest);
    }
  }

  lemma StrippedAppend(x: string, y: string)
    requires Stripped(x) && Stripped(y)
    ensures Stripped(x + y)
  {
    var s := x + y;
    forall i | 0 <= i < |s| && IsBlank(s[i]) ensures i + 1 < |s| && s[i + 1] != '\n' {
      if i < |x| {
        assert s[i] == x[i];
      } else {
        assert s[i] == y[i - |x|];
      }
    }
  }

  lemma StrippedSuffix(t: string, n: nat)
    requires Stripped(t) && n <= |t|
    ensures Stripped(t[n..])
  {
    var u := t[n..];
    forall i | 0 <= i < |u| && IsBlank(u[i]) ensures i + 1 < |u| && u[i + 1] != '\n' {
      assert u[i] == t[n + i];
    }
  }

  lemma RulesAreUnobtrusive()
    ensures Unobtrusive(RuleRuns.RuleLen, RuleRuns.Eight)
  {
    forall s | Matches(RuleRuns.RuleLen, s)
      ensures var x := RuleRuns.Eight(s[..RuleRuns.RuleLen(s)]); x != "" && x[0] != '\n' && NoReturnIn(x) && Stripped(x)
    {
      assert s[..RuleRuns.RuleLen(s)][0] == s[0];
      assert !IsBlank(s[0]) && !IsBreak(s[0]);
    }
  }

  lemma DumpsAreUnobtrusive()
    ensures Unobtrusive(HexDump.DumpLen, HexDump.Marker)
  {
    forall s | Matches(HexDump.DumpLen, s)
      ensures var x := HexDump.Marker(s[..HexDump.DumpLen(s)]); x != "" && x[0] != '\n' && NoReturnIn(x) && Stripped(x)
    {
      var n := (|s[..HexDump.DumpLen(s)]| + 1) / 3;
      HexLiteralsArePlain();
      NoBreaksInNumbered(HexDump.BEFORE, n, HexDump.AFTER);
      NumberIsStripped(HexDump.BEFORE, n, HexDump.AFTER);
    }
  }

  lemma NumberIsStripped(pre: string, n: nat, post: string)
    requires Stripped(pre) && Stripped(post)
    ensures Stripped(Numbered(pre, n, post))
  {
    assert Stripped(Dec(n)) by {
      assert forall i | 0 <= i < |Dec(n)| :: IsDigit(Dec(n)[i]);
    }
    StrippedAppend(pre, Dec(n));
    StrippedAppend(pre + Dec(n), post);
  }

  // ---- short rules stay short -------------------------------------------------------------

  predicate NoRules(t: string) {
    forall i | 0 <= i < |t| :: !RuleRuns.IsRule(t[i])
  }

  lemma {:induction false} NoRulesThen(a: string, w: string)
    requires NoRules(a) && NoMatch(RuleRuns.RuleLen, w)
    ensures NoMatch(RuleRuns.RuleLen, a + w)
  {
    if a == "" {
      assert a + w == w;
    } else {
      assert (a + w)[1..] == a[1..] + w && (a + w)[0] == a[0];
      NoRulesThen(a[1..], w);
    }
  }

  lemma RuleCharsInLiterals()
    ensures NoRules(HexDump.BEFORE) && NoRules(HexDump.AFTER)
    ensures NoRules(Dedup.BEFORE) && NoRules(Dedup.AFTER)
  {
  }

  lemma NoRulesInNumbered(pre: string, n: nat, post: string)
    requires NoRules(pre) && NoRules(post)
    ensures NoRules(Numbered(pre, n, post))
  {
    var s := Numbered(pre, n, post);
    forall i | 0 <= i < |s| ensures !RuleRuns.IsRule(s[i]) {
      if |pre| <= i < |pre| + |Dec(n)| {
        assert s[i] == Dec(n)[i - |pre|] && IsDigit(s[i]);
      }
    }
  }

  /** Folding dumps does not lengthen the run of rule characters at the head of a text. */
  lemma {:induction false} FoldKeepsRun(t: string)
    requires t != "" && RuleRuns.IsRule(t[0])
    ensures var out := HexDump.Fold(t);
            out != "" && out[0] == t[0] && RuleRuns.RunLen(out) <= RuleRuns.RunLen(t)
    decreases |t|
  {
    var rest := t[1..];
    var out, tail := HexDump.Fold(t), HexDump.Fold(rest);
    assert out == [t[0]] + tail && out[1..] == tail;
    if rest != "" {
      if Matches(HexDump.DumpLen, rest) {
        HexDump.FoldStartsWithBracket(rest);
      } else {
        assert tail[0] == rest[0];
        if rest[0] == t[0] {
          FoldKeepsRun(rest);
        }
      }
    }
  }

  lemma {:induction false} FoldKeepsShortRules(t: string)
    requires NoMatch(RuleRuns.RuleLen, t)
    ensures NoMatch(RuleRuns.RuleLen, HexDump.Fold(t))
    decreases |t|
  {
    if t == "" {
    } else if Matches(HexDump.DumpLen, t) {
      var n := HexDump.DumpLen(t);
      var rest := t[n..];
      NoMatchAt(RuleRuns.RuleLen, t, n);
      FoldKeepsShortRules(rest);
      RuleCharsInLiterals();
      NoRulesInNumbered(HexDump.BEFORE, (|t[..n]| + 1) / 3, HexDump.AFTER);
      NoRulesThen(HexDump.Marker(t[..n]), HexDump.Fold(rest));
    } else {
      FoldKeepsShortRules(t[1..]);
      var out := HexDump.Fold(t);
      assert out[1..] == HexDump.Fold(t[1..]) && out[0] == t[0];
      if RuleRuns.IsRule(t[0]) {
        FoldKeepsRun(t);
      }
    }
  }

  // ---- the character passes ---------------------------------------------------------------

  /** What the first three passes establish and the last two must keep. */
  predicate Settled3(t: string) {
    && NoCrLf(t)
    && NoMatch(TrailingWs.TrailingLen, t)
    && NoMatch(RuleRuns.RuleLen, t)
    && NoMatch(HexDump.DumpLen, t)
  }

  function First3(t: string): string {
    HexDump.Fold(RuleRuns.Shorten(TrailingWs.Strip(t)))
  }

  /** `[ \t]*\n` at the head. */
  predicate BlanksThenFeed(s: string) {
    var k := Span(IsBlank, s); k < |s| && s[k] == '\n'
  }

  /** No carriage return comes before a line feed, blanks aside: no `\r[ \t]*\n` in `t`. */
  predicate LoneReturns(t: string) {
    t == "" || ((t[0] == '\r' ==> !BlanksThenFeed(t[1..])) && LoneReturns(t[1..]))
  }

  lemma {:induction false} LoneReturnsTail(t: string, k: nat)
    requires LoneReturns(t) && k <= |t|
    ensures LoneReturns(t[k..])
  {
    if k > 0 {
      LoneReturnsTail(t[1..], k - 1);
      assert t[1..][k - 1..] == t[k..];
    }
  }

  lemma LoneReturnsAt(t: string, i: nat)
    requires LoneReturns(t) && i < |t| && t[i] == '\r'
    ensures !BlanksThenFeed(t[i + 1..])
  {
    LoneReturnsTail(t, i);
    assert t[i..][1..] == t[i + 1..];
  }

  lemma {:induction false} NothingUncovered(t: string)
    requires LoneReturns(t)
    ensures TrailingWs.NeverUncovers(t)
  {
    if t != "" {
      NothingUncovered(t[1..]);
      if |t| > 1 && t[1] == '\r' {
        LoneReturnsAt(t, 1);
        assert |t| > 2 ==> t[2..][Span(IsBlank, t[2..])..] == t[2 + Span(IsBlank, t[2..])..];
      }
    }
  }

  /** Taking blanks away puts no line feed behind a carriage return. */
  lemma {:induction false} StripSeparates(t: string)
    requires LoneReturns(t)
    ensures var y := TrailingWs.Strip(t); NoCrLf(y) && (y != "" && y[0] == '\n' ==> BlanksThenFeed(t))
    decreases |t|
  {
    if t != "" {
      var k := if Matches(TrailingWs.TrailingLen, t) then TrailingWs.TrailingLen(t) else 1;
      var rest := TrailingWs.Strip(t[k..]);
      LoneReturnsTail(t, k);
      StripSeparates(t[k..]);
      if Matches(TrailingWs.TrailingLen, t) {
        assert TrailingWs.Strip(t) == "" + rest == rest;
        BlanksStop(t);
      } else {
        NoCrLfInAppend([t[0]], rest);
        SpanUnique(IsBlank, t, Span(IsBlank, t));
      }
    }
  }

  lemma BlanksStop(t: string)
    ensures var k := Span(IsBlank, t); k < |t| ==> Span(IsBlank, t[k..]) == 0 && t[k..][0] == t[k]
  {
  }

  lemma StripSettles(t: string)
    requires LoneReturns(t)
    ensures NoCrLf(TrailingWs.Strip(t)) && NoMatch(TrailingWs.TrailingLen, TrailingWs.Strip(t))
  {
    NothingUncovered(t);
    TrailingWs.OutputIsStripped(t);
    StripSeparates(t);
  }

  lemma {:induction false} StrippedIsLone(t: string)
    requires NoCrLf(t) && NoMatch(TrailingWs.TrailingLen, t)
    ensures LoneReturns(t)
  {
    if t != "" {
      assert forall i | 0 <= i < |t| - 1 :: t[1..][i] == t[i + 1];
      StrippedIsLone(t[1..]);
      assert |t| > 1 ==> !Matches(TrailingWs.TrailingLen, t[1..]);
    }
  }

  lemma ShortenKeeps(t: string)
    requires NoCrLf(t) && NoMatch(TrailingWs.TrailingLen, t)
    ensures NoCrLf(RuleRuns.Shorten(t)) && NoMatch(TrailingWs.TrailingLen, RuleRuns.Shorten(t))
  {
    StrippedIff(t);
    RulesAreUnobtrusive();
    SubKeepsStripped(RuleRuns.RuleLen, RuleRuns.Eight, t);
    SubKeepsNoCrLf(RuleRuns.RuleLen, RuleRuns.Eight, t);
    StrippedIff(RuleRuns.Shorten(t));
  }

  lemma HexLiteralsArePlain()
    ensures NoBreaks(HexDump.BEFORE) && NoBreaks(HexDump.AFTER)
  {
  }

  lemma HexFoldKeeps(t: string)
    requires NoCrLf(t) && NoMatch(TrailingWs.TrailingLen, t) && NoMatch(RuleRuns.RuleLen, t)
    ensures Settled3(HexDump.Fold(t))
  {
    StrippedIff(t);
    DumpsAreUnobtrusive();
    SubKeepsStripped(HexDump.DumpLen, HexDump.Marker, t);
    SubKeepsNoCrLf(HexDump.DumpLen, HexDump.Marker, t);
    StrippedIff(HexDump.Fold(t));
    FoldKeepsShortRules(t);
    HexDump.OutputHasNoDump(t);
  }

  lemma First3Settles(t: string)
    requires LoneReturns(t)
    ensures Settled3(First3(t))
  {
    var u := TrailingWs.Strip(t);
    StripSettles(t);
    ShortenKeeps(u);
    RuleRuns.ShortenIsIdempotent(u);
    HexFoldKeeps(RuleRuns.Shorten(u));
  }

  /** A property of characters that the marker of a dump has is kept by the first three passes. */
  lemma First3KeepsAll(p: char -> bool, t: string)
    requires All(p, t) && All(p, HexDump.BEFORE) && All(p, HexDump.AFTER) && forall c | IsDigit(c) :: p(c)
    ensures All(p, First3(t))
  {
    SubKeepsAll(TrailingWs.TrailingLen, TrailingWs.Erase, p, t);
    forall s | Matches(RuleRuns.RuleLen, s) && All(p, s) ensures All(p, RuleRuns.Eight(s[..RuleRuns.RuleLen(s)])) {
      assert s[..RuleRuns.RuleLen(s)][0] == s[0] && p(s[0]);
    }
    SubKeepsAll(RuleRuns.RuleLen, RuleRuns.Eight, p, TrailingWs.Strip(t));
    forall s | Matches(HexDump.DumpLen, s) && All(p, s) ensures All(p, HexDump.Marker(s[..HexDump.DumpLen(s)])) {
      NumberedHasAll(p, HexDump.BEFORE, (|s[..HexDump.DumpLen(s)]| + 1) / 3, HexDump.AFTER);
    }
    SubKeepsAll(HexDump.DumpLen, HexDump.Marker, p, RuleRuns.Shorten(TrailingWs.Strip(t)));
  }

  lemma NumberedHasAll(p: char -> bool, pre: string, n: nat, post: string)
    requires All(p, pre) && All(p, post) && forall c | IsDigit(c) :: p(c)
    ensures All(p, Numbered(pre, n, post))
  {
    var s := Numbered(pre, n, post);
    forall i | 0 <= i < |s| ensures p(s[i]) {
      if i < |pre| {
        assert p(pre[i]);
      } else if i < |pre| + |Dec(n)| {
        assert s[i] == Dec(n)[i - |pre|] && IsDigit(s[i]);
      } else {
        assert p(post[i - |pre| - |Dec(n)|]);
      }
    }
  }

  lemma First3OfSettled(t: string)
    requires Settled3(t)
    ensures TrailingWs.Strip(t) == t && RuleRuns.Shorten(t) == t && HexDump.Fold(t) == t
  {
    SubOfNoMatch(TrailingWs.TrailingLen, TrailingWs.Erase, t);
    SubOfNoMatch(RuleRuns.RuleLen, RuleRuns.Eight, t);
    SubOfNoMatch(HexDump.DumpLen, HexDump.Marker, t);
  }

  // ---- line by line -----------------------------------------------------------------------

  lemma {:induction false} NoCrLfByLine(ls: seq<string>)
    requires LinesOfText(ls)
    ensures NoCrLf(Join(ls)) <==> forall l | l in ls :: NoCrLf(l)
  {
    if |ls| == 1 {
      assert Join(ls) == ls[0] + Join([]) == ls[0];
    } else if ls != [] {
      LinesApart(ls);
      NoCrLfInAppend(ls[0], Join(ls[1..]));
      NoCrLfByLine(ls[1..]);
      assert ls == [ls[0]] + ls[1..];
    }
  }

  lemma Settled3ByLine(ls: seq<string>)
    requires LinesOfText(ls)
    ensures Settled3(Join(ls)) <==> forall l | l in ls :: Settled3(l)
  {
    TrailingIsLocal();
    RuleIsLocal();
    DumpIsLocal();
    NoCrLfByLine(ls);
    NoMatchByLine(TrailingWs.TrailingLen, ls);
    NoMatchByLine(RuleRuns.RuleLen, ls);
    NoMatchByLine(HexDump.DumpLen, ls);
  }

  // ---- dedup keeps what was settled -------------------------------------------------------

  predicate GoodLine(l: string) {
    IsLine(l) && Settled3(l)
  }

  lemma DedupLiterals()
    ensures Stripped(Dedup.BEFORE) && Stripped(Dedup.AFTER)
    ensures forall i | 0 <= i < |Dedup.BEFORE| :: !HexDump.IsHex(Dedup.BEFORE[i])
    ensures |Dedup.AFTER| <= 60
  {
  }

  /** No dump starts in a marker: its letters are too near its end. */
  lemma MarkerHasNoDumpAt(pre: string, n: nat, post: string, i: nat)
    requires forall j | 0 <= j < |pre| :: !HexDump.IsHex(pre[j])
    requires |post| <= 80
    requires i < |Numbered(pre, n, post)|
    ensures !Matches(HexDump.DumpLen, Numbered(pre, n, post)[i..])
  {
    var m := Numbered(pre, n, post);
    var s := m[i..];
    assert i < |pre| ==> s[0] == pre[i];
    assert |pre| <= i && i + 2 < |pre| + |Dec(n)| ==> s[2] == Dec(n)[i + 2 - |pre|] && IsDigit(s[2]);
    if Matches(HexDump.DumpLen, s) {
      HexDump.DumpIsHex(s);
    }
  }

  lemma {:induction false} MarkerHasNoDump(pre: string, n: nat, post: string, i: nat)
    requires forall j | 0 <= j < |pre| :: !HexDump.IsHex(pre[j])
    requires |post| <= 80
    requires i <= |Numbered(pre, n, post)|
    ensures NoMatch(HexDump.DumpLen, Numbered(pre, n, post)[i..])
    decreases |Numbered(pre, n, post)| - i
  {
    var m := Numbered(pre, n, post);
    if i < |m| {
      MarkerHasNoDumpAt(pre, n, post, i);
      MarkerHasNoDump(pre, n, post, i + 1);
      assert m[i..][1..] == m[i + 1..];
    }
  }

  lemma MarkerTextSettled(n: nat, e: string)
    requires e == "\n" || e == "\r"
    ensures Settled3(Dedup.MarkerText(n) + e)
  {
    var post := Dedup.AFTER + e;
    var m := Numbered(Dedup.BEFORE, n, post);
    assert m == Dedup.MarkerText(n) + e;
    RuleCharsInLiterals();
    MarkerIsStripped(n, e);
    NoRulesInNumbered(Dedup.BEFORE, n, post);
    NoRulesThen(m, "");
    assert m + "" == m && m[0..] == m;
    MarkerHasNoDump(Dedup.BEFORE, n, post, 0);
  }

  lemma MarkerIsStripped(n: nat, e: string)
    requires e == "\n" || e == "\r"
    ensures var m := Numbered(Dedup.BEFORE, n, Dedup.AFTER + e); NoCrLf(m) && NoMatch(TrailingWs.TrailingLen, m)
    ensures |Dedup.AFTER + e| <= 80 && forall j | 0 <= j < |Dedup.BEFORE| :: !HexDump.IsHex(Dedup.BEFORE[j])
  {
    var m := Numbered(Dedup.BEFORE, n, Dedup.AFTER + e);
    assert m == Dedup.MarkerText(n) + e;
    DedupLiterals();
    assert Stripped(e);
    StrippedAppend(Dedup.AFTER, e);
    NumberIsStripped(Dedup.BEFORE, n, Dedup.AFTER + e);
    Dedup.MarkerReadsBack(n);
    assert forall i | 0 <= i < |m| - 1 :: m[i] == Dedup.MarkerText(n)[i] && !IsBreak(m[i]);
    StrippedIff(m);
  }

  lemma MarkersAreGoodLines()
    ensures forall x, k, n: nat | GoodLine(x) && Dedup.Key(x) == Some(k) :: GoodLine(Dedup.Marker(x, k, n))
  {
    forall x, k, n: nat | GoodLine(x) && Dedup.Key(x) == Some(k) ensures GoodLine(Dedup.Marker(x, k, n)) {
      var count := if n == 0 then 0 else n - 1;
      EolOfLine(x);
      Dedup.MarkerReadsBack(count);
      MarkerLine(Dedup.MarkerText(count), x);
      MarkerTextSettled(count, EolFor(x));
    }
  }

  lemma DedupKeeps(t: string)
    requires Settled3(t)
    ensures Settled3(Dedup.DedupText(t))
  {
    var ls := SplitLines(t);
    SplitGivesLines(t);
    JoinOfSplit(t);
    Settled3ByLine(ls);
    assert forall l | l in ls :: GoodLine(l);
    MarkersAreGoodLines();
    FoldKeepsAll(Dedup.DEDUP, GoodLine, GoodLine, ls);
    Dedup.RuleIsWellBehaved();
    FoldGivesLines(Dedup.DEDUP, IsLine, ls);
    var out := Dedup.DedupLines(ls);
    assert forall l | l in out :: GoodLine(l);
    Settled3ByLine(out);
  }

  // ---- collapsing blanks, line by line ----------------------------------------------------

  /** How many line feeds end a line that is not "\n". */
  function FeedsAtEnd(l: string): nat {
    if l != "" && l[|l| - 1] == '\n' then 1 else 0
  }

  /** Of every run of line feeds the first three stay; `c` of the current run were passed. */
  function CapLines(ls: seq<string>, c: nat): seq<string> {
    if ls == [] then []
    else if ls[0] != "\n" then [ls[0]] + CapLines(ls[1..], FeedsAtEnd(ls[0]))
    else if c < 3 then [ls[0]] + CapLines(ls[1..], c + 1)
    else CapLines(ls[1..], c)
  }

  lemma {:induction false} CapOfContent(x: string, rest: string, c: nat)
    requires '\n' !in x && x != ""
    ensures CollapseBlanks.Cap(x + rest, c) == x + CollapseBlanks.Cap(rest, 0)
  {
    assert (x + rest)[1..] == x[1..] + rest && (x + rest)[0] == x[0];
    if |x| > 1 {
      CapOfContent(x[1..], rest, 0);
      assert x == [x[0]] + x[1..];
    } else {
      assert x[1..] + rest == rest;
    }
  }

  lemma OneFeed(l: string)
    requires IsLine(l) && NoCrLf(l)
    ensures if FeedsAtEnd(l) == 1 then '\n' !in l[..|l| - 1] else '\n' !in l
  {
    var b, e := LineShape(l);
    assert forall i | 0 <= i < |b| :: l[i] == b[i] && !IsBreak(b[i]);
    assert b != "" ==> !IsBreak(b[|b| - 1]);
    NoCrLfInAppend(b, e);
  }

  lemma CapOfLine(l: string, rest: string, c: nat)
    requires IsLine(l) && NoCrLf(l) && l != "\n"
    ensures CollapseBlanks.Cap(l + rest, c) == l + CollapseBlanks.Cap(rest, FeedsAtEnd(l))
  {
    OneFeed(l);
    if FeedsAtEnd(l) == 0 {
      CapOfContent(l, rest, c);
    } else {
      var x := l[..|l| - 1];
      assert l == x + "\n";
      CapOfContent(x, "\n" + rest, c);
      assert l + rest == x + ("\n" + rest);
      assert ("\n" + rest)[1..] == rest;
    }
  }

  lemma {:induction false} CapOfJoin(ls: seq<string>, c: nat)
    requires LinesOfText(ls) && forall l | l in ls :: NoCrLf(l)
    ensures CollapseBlanks.Cap(Join(ls), c) == Join(CapLines(ls, c))
    decreases |ls|
  {
    if ls != [] {
      var l, rest := ls[0], Join(ls[1..]);
      LinesTail(ls, 1);
      if l != "\n" {
        assert IsLine(l) && NoCrLf(l);
        CapOfLine(l, rest, c);
        CapOfJoin(ls[1..], FeedsAtEnd(l));
      } else {
        assert (l + rest)[1..] == rest;
        CapOfJoin(ls[1..], if c < 3 then c + 1 else c);
      }
    }
  }

  lemma {:induction false} CapLinesShape(ls: seq<string>, c: nat)
    requires LinesOfText(ls)
    ensures LinesOfText(CapLines(ls, c))
    ensures forall l | l in CapLines(ls, c) :: l in ls
    ensures var out := CapLines(ls, c); out != [] && out[0] != "\n" && ls[0] != "\n" ==> out[0] == ls[0]
    decreases |ls|
  {
    if ls != [] {
      var d := if ls[0] != "\n" then FeedsAtEnd(ls[0]) else if c < 3 then c + 1 else c;
      var rest := CapLines(ls[1..], d);
      LinesTail(ls, 1);
      CapLinesShape(ls[1..], d);
      assert IsLine(ls[0]);
      if rest != [] {
        assert Follows(ls[0], ls[1]) && IsLine(rest[0]);
        assert d < 3 ==> rest[0] == ls[1];
      }
      LinesCons(ls[0], rest);
    }
  }

  lemma CollapseByLine(t: string)
    requires Settled3(t)
    ensures CollapseBlanks.Collapse(t) == Join(CapLines(SplitLines(t), 0))
    ensures SplitLines(CollapseBlanks.Collapse(t)) == CapLines(SplitLines(t), 0)
  {
    var ls := SplitLines(t);
    SplitGivesLines(t);
    JoinOfSplit(t);
    NoCrLfByLine(ls);
    CollapseBlanks.CollapseIsCap(t);
    CapOfJoin(ls, 0);
    CapLinesShape(ls, 0);
    SplitOfJoin(CapLines(ls, 0));
  }

  lemma CollapseKeeps(t: string)
    requires Settled3(t)
    ensures Settled3(CollapseBlanks.Collapse(t))
    ensures CollapseBlanks.Collapse(CollapseBlanks.Collapse(t)) == CollapseBlanks.Collapse(t)
  {
    var ls := SplitLines(t);
    SplitGivesLines(t);
    JoinOfSplit(t);
    Settled3ByLine(ls);
    CollapseByLine(t);
    CapLinesShape(ls, 0);
    Settled3ByLine(CapLines(ls, 0));
    CollapseBlanks.CollapseIsCap(t);
    CollapseBlanks.CollapseIsCap(CollapseBlanks.Collapse(t));
    CollapseBlanks.CapTwice(t, 0);
  }

  lemma CollapseWeighsLess(w: Weight, t: string)
    requires Settled3(t) && w('\n') > 0
    ensures CollapseBlanks.Collapse(t) != t ==> Weigh(w, CollapseBlanks.Collapse(t)) < Weigh(w, t)
  {
    CollapseBlanks.CollapseIsCap(t);
    CollapseBlanks.CapWeighsLess(w, t, 0);
  }

  // ---- the guard on dedup decides the same before and after -------------------------------

  /** With runs of two, the first piece is decided by its lines and the line after them. */
  lemma SamePiece(s: seq<string>, s': seq<string>, n: nat)
    requires s != [] && n == HeadLength(Dedup.DEDUP, s)
    requires n <= |s'| && s'[..n] == s[..n]
    requires n < |s| <==> n < |s'|
    requires n < |s| ==> s'[n] == s[n]
    ensures HeadLength(Dedup.DEDUP, s') == n && HeadPiece(Dedup.DEDUP, s') == HeadPiece(Dedup.DEDUP, s)
  {
    var rule := Dedup.DEDUP;
    assert forall i | 0 <= i < n :: s'[i] == s[..n][i] == s[i];
    match rule.key(s[0])
    case None =>
    case Some(k) =>
      var f := Followers(rule, k, s[1..]);
      assert f == n - 1;
      assert forall i | 0 <= i < f :: s'[1..][i] == s[1..][i];
      assert n < |s| ==> s[1..][f] == s[n] && s'[1..][f] == s'[n];
      FollowersAre(rule, k, s'[1..], f);
  }

  lemma {:induction false} CapLinesOfPiece(ls: seq<string>, n: nat, c: nat)
    requires 0 < n <= |ls| && forall i | 0 <= i < n :: ls[i] != "\n"
    ensures CapLines(ls, c) == ls[..n] + CapLines(ls[n..], FeedsAtEnd(ls[n - 1]))
  {
    if n == 1 {
      assert ls[..1] == [ls[0]];
    } else {
      CapLinesOfPiece(ls[1..], n - 1, FeedsAtEnd(ls[0]));
      assert ls[1..][n - 2] == ls[n - 1];
      assert ls[1..][n - 1..] == ls[n..];
      assert ls[..n] == [ls[0]] + ls[1..][..n - 1];
    }
  }

  lemma PieceHasNoBlank(ls: seq<string>)
    requires ls != [] && ls[0] != "\n"
    ensures forall i | 0 <= i < HeadLength(Dedup.DEDUP, ls) :: ls[i] != "\n"
  {
    if FoldsAt(Dedup.DEDUP, ls) {
      Dedup.RunIsCopies(ls);
    }
  }

  lemma FoldByPiece(rule: Rule, s: seq<string>)
    requires s != []
    ensures Fold(rule, s) == RenderOne(rule, HeadPiece(rule, s)) + Fold(rule, s[HeadLength(rule, s)..])
  {
  }

  /** Dedup gains or loses the same on both. */
  predicate SameDelta(w: Weight, a: seq<string>, b: seq<string>) {
    Weigh(w, Join(Dedup.DedupLines(a))) - Weigh(w, Join(a)) == Weigh(w, Join(Dedup.DedupLines(b))) - Weigh(w, Join(b))
  }

  /** How much dedup gains or loses does not depend on blank lines beyond the third line feed, however
      the characters are weighed. */
  lemma {:induction false} DedupDelta(w: Weight, ls: seq<string>, c: nat)
    ensures SameDelta(w, CapLines(ls, c), ls)
    decreases |ls|
  {
    if ls == [] {
    } else if ls[0] == "\n" {
      var d := if c < 3 then c + 1 else c;
      DedupDelta(w, ls[1..], d);
      BlankHead(w, ls[1..]);
      BlankHead(w, CapLines(ls[1..], d));
      assert ls == ["\n"] + ls[1..];
    } else {
      var n := HeadLength(Dedup.DEDUP, ls);
      DedupDelta(w, ls[n..], FeedsAtEnd(ls[n - 1]));
      DeltaAtPiece(w, ls, c);
    }
  }

  lemma DeltaAtPiece(w: Weight, ls: seq<string>, c: nat)
    requires ls != [] && ls[0] != "\n"
    requires var n := HeadLength(Dedup.DEDUP, ls); SameDelta(w, CapLines(ls[n..], FeedsAtEnd(ls[n - 1])), ls[n..])
    ensures SameDelta(w, CapLines(ls, c), ls)
  {
    var n := HeadLength(Dedup.DEDUP, ls);
    var d := FeedsAtEnd(ls[n - 1]);
    var capped := CapLines(ls[n..], d);
    var all := ls[..n] + capped;
    PieceHasNoBlank(ls);
    CapLinesOfPiece(ls, n, c);
    CappedTail(ls, n, d);
    assert all[n..] == capped;
    SamePiece(ls, all, n);
    Rejoin(ls, n);
    DeltaOfPiece(w, ls[..n], ls[n..], ls);
    DeltaOfPiece(w, ls[..n], capped, all);
  }

  lemma CappedTail(ls: seq<string>, n: nat, d: nat)
    requires n <= |ls| && d < 3
    ensures var capped := CapLines(ls[n..], d);
            (n < |ls| <==> capped != []) && (n < |ls| ==> capped[0] == ls[n])
  {
  }

  lemma BlankHead(w: Weight, rest: seq<string>)
    ensures Weigh(w, Join(Dedup.DedupLines(["\n"] + rest))) == w('\n') + Weigh(w, Join(Dedup.DedupLines(rest)))
    ensures Weigh(w, Join(["\n"] + rest)) == w('\n') + Weigh(w, Join(rest))
  {
    assert (["\n"] + rest)[1..] == rest;
    assert Content("\n") == Content("") == "";
    assert Dedup.Key("\n") == None;
    assert Dedup.DedupLines(["\n"] + rest) == ["\n"] + Dedup.DedupLines(rest);
    assert (["\n"] + Dedup.DedupLines(rest))[1..] == Dedup.DedupLines(rest);
    NewlineWeighs(w, Join(rest));
    NewlineWeighs(w, Join(Dedup.DedupLines(rest)));
  }

  lemma NewlineWeighs(w: Weight, t: string)
    ensures Weigh(w, "\n" + t) == w('\n') + Weigh(w, t)
  {
    assert ("\n" + t)[1..] == t;
  }

  lemma DeltaOfPiece(w: Weight, head: seq<string>, tail: seq<string>, ls: seq<string>)
    requires ls == head + tail && ls != [] && |head| == HeadLength(Dedup.DEDUP, ls)
    ensures Weigh(w, Join(ls)) == Weigh(w, Join(head)) + Weigh(w, Join(tail))
    ensures Weigh(w, Join(Dedup.DedupLines(ls)))
         == Weigh(w, Join(RenderOne(Dedup.DEDUP, HeadPiece(Dedup.DEDUP, ls)))) + Weigh(w, Join(Dedup.DedupLines(tail)))
  {
    var shown := RenderOne(Dedup.DEDUP, HeadPiece(Dedup.DEDUP, ls));
    assert ls[|head|..] == tail;
    JoinAppend(head, tail);
    WeighAppend(w, Join(head), Join(tail));
    FoldByPiece(Dedup.DEDUP, ls);
    JoinAppend(shown, Dedup.DedupLines(tail));
    WeighAppend(w, Join(shown), Join(Dedup.DedupLines(tail)));
  }

  /** Dedup under a guard that weighs characters; `UNIT` is the guard of the source. */
  function GuardedDedup(w: Weight, t: string): string {
    if Weigh(w, Dedup.DedupText(t)) < Weigh(w, t) then Dedup.DedupText(t) else t
  }

  /** A rejected dedup stays rejected after the blank lines were collapsed. */
  lemma DedupStaysRejected(w: Weight, t: string)
    requires Settled3(t)
    ensures var z := CollapseBlanks.Collapse(GuardedDedup(w, t)); GuardedDedup(w, z) == z
  {
    var z := GuardedDedup(w, t);
    DedupKeeps(t);
    Dedup.DedupIsIdempotent(t);
    assert Weigh(w, Dedup.DedupText(z)) >= Weigh(w, z);
    CollapseByLine(z);
    JoinOfSplit(z);
    DedupDelta(w, SplitLines(z), 0);
  }

  // ---- the pipeline -----------------------------------------------------------------------

  const TRAILING: Pass := Pass("trailing_ws", (t: string) => Some(TrailingWs.Strip(t)))
  const RULES: Pass := Pass("rule_runs", (t: string) => Some(RuleRuns.Shorten(t)))
  const DUMPS: Pass := Pass("hex_dump_fold", (t: string) => Some(HexDump.Fold(t)))
  const REPEATS: Pass := Pass("dedup_lines", (t: string) => Some(Dedup.DedupText(t)))
  const BLANKS: Pass := Pass("collapse_blanks", (t: string) => Some(CollapseBlanks.Collapse(t)))

  function Five(w: Weight, t: string): string {
    CollapseBlanks.Collapse(GuardedDedup(w, First3(t)))
  }

  lemma FiveSettles(w: Weight, t: string)
    requires LoneReturns(t)
    ensures Settled3(First3(t)) && Settled3(GuardedDedup(w, First3(t))) && Settled3(Five(w, t))
    ensures Five(w, Five(w, t)) == Five(w, t)
  {
    var u := First3(t);
    var y := Five(w, t);
    First3Settles(t);
    DedupKeeps(u);
    CollapseKeeps(GuardedDedup(w, u));
    First3OfSettled(y);
    DedupStaysRejected(w, u);
  }

  lemma StepsOfFirst3(t: string)
    ensures Step(TRAILING, t) == TrailingWs.Strip(t)
    ensures Step(RULES, t) == RuleRuns.Shorten(t)
    ensures Step(DUMPS, t) == HexDump.Fold(t)
    ensures Step(REPEATS, t) == GuardedDedup(UNIT, t)
  {
    TrailingWs.StripShortens();
    SubChangesIffShorter(TrailingWs.TrailingLen, TrailingWs.Erase, t);
    RuleRuns.EightShortens();
    SubChangesIffShorter(RuleRuns.RuleLen, RuleRuns.Eight, t);
    HexDump.FoldShortens();
    SubChangesIffShorter(HexDump.DumpLen, HexDump.Marker, t);
    WeighUnit(t);
    WeighUnit(Dedup.DedupText(t));
  }

  lemma StepOfBlanks(t: string)
    requires Settled3(t)
    ensures Step(BLANKS, t) == CollapseBlanks.Collapse(t)
  {
    CollapseWeighsLess(UNIT, t);
    WeighUnit(t);
    WeighUnit(CollapseBlanks.Collapse(t));
  }

  /** The driver on a list of passes, step by step. */
  lemma RunAllOfFive(a: Pass, b: Pass, c: Pass, d: Pass, e: Pass, t: string)
    ensures RunAll([a, b, c, d, e], t) == Step(e, Step(d, Step(c, Step(b, Step(a, t)))))
  {
    assert [a, b, c, d, e] == [a] + ([b] + ([c] + ([d] + ([e] + []))));
    RunAllCons(a, [b] + ([c] + ([d] + ([e] + []))), t);
    RunAllCons(b, [c] + ([d] + ([e] + [])), Step(a, t));
    RunAllCons(c, [d] + ([e] + []), Step(b, Step(a, t)));
    RunAllCons(d, [e] + [], Step(c, Step(b, Step(a, t))));
    RunAllCons(e, [], Step(d, Step(c, Step(b, Step(a, t)))));
  }

  lemma FiveSteps(t: string)
    requires LoneReturns(t)
    ensures Step(DUMPS, Step(RULES, Step(TRAILING, t))) == First3(t)
    ensures Step(BLANKS, Step(REPEATS, First3(t))) == Five(UNIT, t)
  {
    StepsOfFirst3(t);
    StepsOfFirst3(TrailingWs.Strip(t));
    StepsOfFirst3(RuleRuns.Shorten(TrailingWs.Strip(t)));
    StepsOfFirst3(First3(t));
    First3Settles(t);
    DedupKeeps(First3(t));
    StepOfBlanks(GuardedDedup(UNIT, First3(t)));
  }

  lemma FivePassesCompute(t: string)
    requires LoneReturns(t)
    ensures Compressed([TRAILING, RULES, DUMPS, REPEATS, BLANKS], t) == Five(UNIT, t)
  {
    CompressedIsRunAll([TRAILING, RULES, DUMPS, REPEATS, BLANKS], t);
    RunAllOfFive(TRAILING, RULES, DUMPS, REPEATS, BLANKS, t);
    FiveSteps(t);
  }

  /** Main result: the guarded sequence of the five passes is idempotent on every text in which no
      carriage return comes before a line feed, whatever its other breaks are. */
  lemma FivePassesAreIdempotent(t: string)
    requires LoneReturns(t)
    ensures var ps := [TRAILING, RULES, DUMPS, REPEATS, BLANKS];
            Compressed(ps, Compressed(ps, t)) == Compressed(ps, t)
  {
    FivePassesCompute(t);
    FiveSettles(UNIT, t);
    StrippedIsLone(Five(UNIT, t));
    FivePassesCompute(Five(UNIT, t));
  }
}
