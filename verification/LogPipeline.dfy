/**
  The full list of base passes with the log fold as it is: the condition on lines that the last two passes
  keep, what the log fold leaves of the work of the first three, and log texts that need a second run.
 */
module LogPipeline {
  import opened Ansi
  import opened Driver
  import opened FullPipeline
  import opened PipelineIdempotence
  import opened RunFold
  import opened Substitution
  import opened Text
  import opened Wrappers
  import CollapseBlanks
  import Dedup
  import HexDump
  import LogFold
  import RuleRuns
  import TrailingWs

  function LogPass(repr: string -> string): Pass {
    Pass("fenced_log_fold", (t: string) => Some(LogFold.LogText(repr, t)))
  }

  // ---- runs of one prefix get no longer ---------------------------------------------------

  /** Neither a dedup marker nor a blank line has a key. */
  ghost predicate SkipsMarkers(rule: Rule) {
    && ByKey(rule) && rule.least >= 3 && rule.key("\n") == None
    && forall first, k, n: nat | IsLine(first) :: rule.key(Dedup.Marker(first, k, n)) == None
  }

  lemma {:induction false} SettledSuffix(rule: Rule, ls: seq<string>, n: nat)
    requires Settled(rule, ls) && n <= |ls|
    ensures Settled(rule, ls[n..])
  {
    forall i | 0 <= i < |ls| - n ensures !FoldsAt(rule, ls[n..][i..]) {
      assert ls[n..][i..] == ls[n + i..];
    }
  }

  lemma {:induction false} DedupFollowers(rule: Rule, k: string, ls: seq<string>)
    requires SkipsMarkers(rule) && forall l | l in ls :: IsLine(l)
    ensures Followers(rule, k, Dedup.DedupLines(ls)) <= Followers(rule, k, ls)
    decreases |ls|
  {
    if ls != [] {
      var out := Dedup.DedupLines(ls);
      FoldHead(Dedup.DEDUP, ls);
      if FoldsAt(Dedup.DEDUP, ls) {
        FirstFolded(Dedup.DEDUP, ls);
        assert IsLine(ls[0]) && out[1..][0] == out[1];
      } else {
        FirstKept(Dedup.DEDUP, ls);
        DedupFollowers(rule, k, ls[1..]);
      }
    }
  }

  lemma KeptHead(rule: Rule, ls: seq<string>, out: seq<string>)
    requires ls != [] && out != [] && out[0] == ls[0] && !FoldsAt(rule, ls)
    requires forall k :: Followers(rule, k, out[1..]) <= Followers(rule, k, ls[1..])
    ensures !FoldsAt(rule, out)
  {
  }

  lemma MarkedHead(rule: Rule, out: seq<string>)
    requires SkipsMarkers(rule) && |out| >= 2 && rule.key(out[1]) == None
    ensures !FoldsAt(rule, out) && (Settled(rule, out) <==> Settled(rule, out[2..]))
  {
    assert out[1..][0] == out[1] && out[1..][1..] == out[2..];
    SettledTail(rule, out);
    SettledTail(rule, out[1..]);
  }

  /** Dedup makes no run that could be folded. */
  lemma {:induction false} DedupKeepsSettled(rule: Rule, ls: seq<string>)
    requires SkipsMarkers(rule) && (forall l | l in ls :: IsLine(l)) && Settled(rule, ls)
    ensures Settled(rule, Dedup.DedupLines(ls))
    decreases |ls|
  {
    if ls != [] {
      var n, out := HeadLength(Dedup.DEDUP, ls), Dedup.DedupLines(ls);
      SettledSuffix(rule, ls, n);
      DedupKeepsSettled(rule, ls[n..]);
      if FoldsAt(Dedup.DEDUP, ls) {
        FirstFolded(Dedup.DEDUP, ls);
        assert IsLine(ls[0]);
        MarkedHead(rule, out);
      } else {
        FirstKept(Dedup.DEDUP, ls);
        forall k ensures Followers(rule, k, out[1..]) <= Followers(rule, k, ls[1..]) {
          DedupFollowers(rule, k, ls[1..]);
        }
        SettledTail(rule, ls);
        KeptHead(rule, ls, out);
        SettledTail(rule, out);
      }
    }
  }

  lemma {:induction false} CapFollowers(rule: Rule, k: string, ls: seq<string>, c: nat)
    requires SkipsMarkers(rule) && c < 3
    ensures Followers(rule, k, CapLines(ls, c)) <= Followers(rule, k, ls)
    decreases |ls|
  {
    if ls != [] && ls[0] != "\n" {
      CapFollowers(rule, k, ls[1..], FeedsAtEnd(ls[0]));
      assert CapLines(ls, c)[1..] == CapLines(ls[1..], FeedsAtEnd(ls[0]));
    }
  }

  lemma {:induction false} CapKeepsSettled(rule: Rule, ls: seq<string>, c: nat)
    requires SkipsMarkers(rule) && Settled(rule, ls)
    ensures Settled(rule, CapLines(ls, c))
    decreases |ls|
  {
    if ls != [] {
      var d := if ls[0] != "\n" then FeedsAtEnd(ls[0]) else if c < 3 then c + 1 else c;
      var out := CapLines(ls, c);
      SettledTail(rule, ls);
      CapKeepsSettled(rule, ls[1..], d);
      if ls[0] != "\n" {
        assert out[1..] == CapLines(ls[1..], d);
        forall k ensures Followers(rule, k, out[1..]) <= Followers(rule, k, ls[1..]) {
          CapFollowers(rule, k, ls[1..], d);
        }
        KeptHead(rule, ls, out);
        SettledTail(rule, out);
      } else if c < 3 {
        assert out[1..] == CapLines(ls[1..], d);
        SettledTail(rule, out);
      }
    }
  }

  lemma LogSkipsMarkers(repr: string -> string)
    ensures SkipsMarkers(LogFold.LogRule(repr))
  {
    LogFold.LogRuleByKey(repr);
    assert Content("\n") == Content("") == "";
    forall first, k, n: nat | IsLine(first) ensures LogFold.Key(Dedup.Marker(first, k, n)) == None {
      MarkerHasNoPrefix(first, if n == 0 then 0 else n - 1);
    }
  }

  lemma MarkerHasNoPrefix(first: string, n: nat)
    requires IsLine(first)
    ensures LogFold.Key(Dedup.MarkerText(n) + EolFor(first)) == None
  {
    var text := Dedup.MarkerText(n);
    Dedup.MarkerReadsBack(n);
    MarkerLine(text, first);
    SpanUnique(IsBlank, text, 0);
    assert text[0..] == text;
  }

  /** Without a run of five the log fold has nothing to do. */
  lemma LogPassIsIdle(repr: string -> string, t: string)
    requires Settled(LogFold.LogRule(repr), SplitLines(t))
    ensures LogFold.LogText(repr, t) == t && !Applies(LogPass(repr), t)
  {
    FoldOfSettled(LogFold.LogRule(repr), SplitLines(t));
    JoinOfSplit(t);
  }

  /** The last two passes give the log fold nothing to do. */
  lemma LogStaysIdle(repr: string -> string, v: string)
    requires Settled3(v) && Settled(LogFold.LogRule(repr), SplitLines(v))
    ensures !Applies(LogPass(repr), LastTwo(v))
  {
    var rule, z := LogFold.LogRule(repr), GuardedDedup(UNIT, v);
    LogSkipsMarkers(repr);
    LastTwoSettles(v);
    SplitGivesLines(v);
    DedupKeepsSettled(rule, SplitLines(v));
    Dedup.DedupTextSplits(v);
    CapKeepsSettled(rule, SplitLines(z), 0);
    CollapseByLine(z);
    LogPassIsIdle(repr, LastTwo(v));
  }

  /** Main result on plain texts: it is enough that no five lines in a row that the first passes leave start
      with the same tag or time stamp. */
  lemma PlainTextPipelineIsIdempotent(repr: string -> string, json: Pass, t: string)
    requires Harmless(json) && LoneReturns(StripAnsi(t)) && EscFree(StripAnsi(t)) && NotJson(First3(StripAnsi(t)))
    requires Settled(LogFold.LogRule(repr), SplitLines(First3(StripAnsi(t))))
    ensures var ps := Algos(LogPass(repr), json);
            Compressed(ps, Compressed(ps, t)) == Compressed(ps, t)
  {
    var u := First3(StripAnsi(t));
    First3Settles(StripAnsi(t));
    LogPassIsIdle(repr, u);
    LogStaysIdle(repr, u);
    PlainPipelineIsIdempotentIff(LogPass(repr), json, t);
  }

  // ---- what the log fold leaves settled ---------------------------------------------------

  lemma {:induction false} RunOfPrefix(s: string, n: nat)
    requires 0 < n <= |s|
    ensures RuleRuns.RunLen(s[..n]) <= RuleRuns.RunLen(s)
  {
    if n > 1 && s[1] == s[0] {
      assert s[..n][1..] == s[1..][..n - 1];
      RunOfPrefix(s[1..], n - 1);
    }
  }

  lemma PrefixesAreClosed()
    ensures PrefixClosed(RuleRuns.RuleLen) && PrefixClosed(HexDump.DumpLen)
  {
    forall s, n: nat | n <= |s| && Matches(RuleRuns.RuleLen, s[..n]) ensures Matches(RuleRuns.RuleLen, s) {
      RunOfPrefix(s, n);
    }
    forall s, n: nat | n <= |s| && Matches(HexDump.DumpLen, s[..n]) ensures Matches(HexDump.DumpLen, s) {
      HexDump.DumpIsHex(s[..n]);
      assert s[..n][..95] == s[..95];
      HexDump.DumpInPrefix(s[..n], s);
    }
  }

  lemma {:induction false} RunBefore(a: string, c: char, w: string)
    requires a != "" && c != a[0]
    ensures RuleRuns.RunLen(a + ([c] + w)) == RuleRuns.RunLen(a)
  {
    var t := a + ([c] + w);
    assert t[0] == a[0] && t[1..] == a[1..] + ([c] + w);
    if |a| > 1 {
      assert t[1] == a[1];
      if a[1] == a[0] {
        RunBefore(a[1..], c, w);
      }
    } else {
      assert t[1] == c;
    }
  }

  lemma RulesStop(c: char)
    requires !RuleRuns.IsRule(c)
    ensures StoppedBy(RuleRuns.RuleLen, c)
  {
    forall a, w | a != "" && Matches(RuleRuns.RuleLen, a + ([c] + w)) ensures Matches(RuleRuns.RuleLen, a) {
      assert (a + ([c] + w))[0] == a[0];
      RunBefore(a, c, w);
    }
  }

  lemma DumpsStop(c: char)
    requires !HexDump.IsHexOrSpace(c)
    ensures StoppedBy(HexDump.DumpLen, c)
  {
    forall a, w | a != "" && Matches(HexDump.DumpLen, a + ([c] + w)) ensures Matches(HexDump.DumpLen, a) {
      var t := a + ([c] + w);
      HexDump.DumpIsHex(t);
      assert t[|a|] == c;
      assert t[..95] == a[..95];
      HexDump.DumpInPrefix(t, a);
    }
    forall w ensures !Matches(HexDump.DumpLen, [c] + w) {
      if Matches(HexDump.DumpLen, [c] + w) {
        HexDump.DumpIsHex([c] + w);
      }
    }
  }

  lemma {:induction false} StripIsPart(s: string) returns (i: nat, j: nat)
    ensures i <= j <= |s| && LogFold.Strip(s) == s[i..j]
    decreases |s|
  {
    if s == "" {
      i, j := 0, 0;
    } else if IsSpace(s[0]) {
      i, j := StripIsPart(s[1..]);
      assert s[1..][i..j] == s[i + 1..j + 1];
      i, j := i + 1, j + 1;
    } else if IsSpace(s[|s| - 1]) {
      i, j := StripIsPart(s[..|s| - 1]);
      assert s[..|s| - 1][i..j] == s[i..j];
    } else {
      i, j := 0, |s|;
      assert s[0..|s|] == s;
    }
  }

  /** Python shows the prefix in single quotes as it is. */
  predicate IsQuoted(repr: string -> string, k: string) {
    repr(LogFold.Strip(k)) == "'" + LogFold.Strip(k) + "'"
  }

  predicate PrefixIsQuoted(repr: string -> string, l: string) {
    LogFold.Key(l).Some? ==> IsQuoted(repr, LogFold.Key(l).value)
  }

  const OPENS: string := " ("

  lemma MarkerParts(repr: string -> string, k: string, n: nat, e: string)
    requires IsQuoted(repr, k)
    ensures var x := LogFold.Strip(k);
            LogFold.MarkerText(repr, k, n) + e
            == k + ([ELLIPSIS] + (Numbered(OPENS, n, LogFold.AFTER) + (['\''] + (x + (['\''] + (")" + e))))))
  {
    assert LogFold.BEFORE == [ELLIPSIS] + OPENS;
    RegroupMarker(k, [ELLIPSIS], OPENS, Dec(n), LogFold.AFTER, LogFold.Strip(k), e);
  }

  lemma RegroupMarker(k: string, a: string, b: string, d: string, c: string, x: string, e: string)
    ensures k + (a + b + d + c) + ("'" + x + "'") + ")" + e
         == k + (a + ((b + d + c) + (['\''] + (x + (['\''] + (")" + e))))))
  {
  }

  lemma MarkerLiterals(e: string)
    requires e == "\n"
    ensures NoRules(OPENS) && NoRules(LogFold.AFTER) && NoRules(")" + e) && |LogFold.AFTER| <= 80
    ensures forall j | 0 <= j < |OPENS| :: !HexDump.IsHex(OPENS[j])
    ensures !RuleRuns.IsRule(ELLIPSIS) && !RuleRuns.IsRule('\'')
    ensures !HexDump.IsHexOrSpace(ELLIPSIS) && !HexDump.IsHexOrSpace('\'')
  {
  }

  lemma PiecesMatchNothing(n: nat, e: string)
    requires e == "\n"
    ensures var mid := Numbered(OPENS, n, LogFold.AFTER);
            && NoMatch(RuleRuns.RuleLen, mid) && NoMatch(HexDump.DumpLen, mid)
            && NoMatch(RuleRuns.RuleLen, ")" + e) && NoMatch(HexDump.DumpLen, ")" + e)
  {
    var mid := Numbered(OPENS, n, LogFold.AFTER);
    MarkerLiterals(e);
    NoRulesInNumbered(OPENS, n, LogFold.AFTER);
    NoRulesThen(mid, "");
    NoRulesThen(")" + e, "");
    assert mid + "" == mid && ")" + e + "" == ")" + e && mid[0..] == mid;
    MarkerHasNoDump(OPENS, n, LogFold.AFTER, 0);
    forall s | Matches(HexDump.DumpLen, s) ensures |s| >= 95 {
      HexDump.DumpIsHex(s);
    }
    TooShort(HexDump.DumpLen, 95, ")" + e);
  }

  lemma PartsMatchNothing(m: Pattern, k: string, mid: string, x: string, end: string)
    requires StoppedBy(m, ELLIPSIS) && StoppedBy(m, '\'')
    requires NoMatch(m, k) && NoMatch(m, mid) && NoMatch(m, x) && NoMatch(m, end)
    ensures NoMatch(m, k + ([ELLIPSIS] + (mid + (['\''] + (x + (['\''] + end))))))
  {
    NoMatchAcross(m, '\'', x, end);
    NoMatchAcross(m, '\'', mid, x + (['\''] + end));
    NoMatchAcross(m, ELLIPSIS, k, mid + (['\''] + (x + (['\''] + end))));
  }

  /** A log marker has no rule and no dump if the line it was made of has none. */
  lemma MarkerMatchesNothing(repr: string -> string, l: string, k: string, n: nat)
    requires LogFold.Key(l) == Some(k) && IsQuoted(repr, k)
    requires NoMatch(RuleRuns.RuleLen, l) && NoMatch(HexDump.DumpLen, l)
    ensures var m := LogFold.MarkerText(repr, k, n) + "\n";
            NoMatch(RuleRuns.RuleLen, m) && NoMatch(HexDump.DumpLen, m)
  {
    var i, j := StripIsPart(k);
    var x := LogFold.Strip(k);
    assert k == l[..|k|];
    PrefixesAreClosed();
    MarkerLiterals("\n");
    RulesStop(ELLIPSIS);
    RulesStop('\'');
    DumpsStop(ELLIPSIS);
    DumpsStop('\'');
    PiecesMatchNothing(n, "\n");
    NoMatchInPrefix(RuleRuns.RuleLen, l, |k|);
    NoMatchInPrefix(HexDump.DumpLen, l, |k|);
    NoMatchInPart(RuleRuns.RuleLen, k, i, j);
    NoMatchInPart(HexDump.DumpLen, k, i, j);
    MarkerParts(repr, k, n, "\n");
    PartsMatchNothing(RuleRuns.RuleLen, k, Numbered(OPENS, n, LogFold.AFTER), x, ")" + "\n");
    PartsMatchNothing(HexDump.DumpLen, k, Numbered(OPENS, n, LogFold.AFTER), x, ")" + "\n");
  }

  predicate FeedOrNoBreak(c: char) {
    IsBreak(c) ==> c == '\n'
  }

  /** "\n" is the only break. */
  predicate OnlyNewlines(t: string) { All(FeedOrNoBreak, t) }

  /** A line whose only break is "\n", without ESC and with nothing for the first three passes, and whose
      prefix Python shows as it is. */
  predicate IsLogLine(repr: string -> string, l: string) {
    IsLine(l) && OnlyNewlines(l) && EscFree(l) && Settled3(l) && PrefixIsQuoted(repr, l)
  }

  predicate IsClean(l: string) {
    EscFree(l) && Settled3(l)
  }

  lemma NewlineEol(l: string)
    requires IsLine(l) && OnlyNewlines(l) && NoCrLf(l)
    ensures EolFor(l) == "\n" && NoBreaks(Content(l))
  {
    var c := Content(l);
    EolOfLine(l);
    assert FeedOrNoBreak(l[|l| - 1]);
    forall i | 0 <= i < |c| ensures !IsBreak(c[i]) {
      assert c[i] == l[i] && FeedOrNoBreak(l[i]);
      if IsBreak(l[i]) {
        BreakEndsLine(l, i);
        ContentEndsPlain(l);
      }
    }
  }

  lemma MarkerIsEscFree(repr: string -> string, k: string, n: nat)
    requires EscFree(k) && IsQuoted(repr, k)
    ensures EscFree(LogFold.MarkerText(repr, k, n) + "\n")
  {
    var i, j := StripIsPart(k);
    var x := LogFold.Strip(k);
    assert forall y | 0 <= y < |x| :: x[y] == k[i + y];
    assert EscFree(x);
    NumberedHasAll(NotEsc, LogFold.BEFORE, n, LogFold.AFTER);
    AllInAppend(NotEsc, k, Numbered(LogFold.BEFORE, n, LogFold.AFTER));
    AllInAppend(NotEsc, k + Numbered(LogFold.BEFORE, n, LogFold.AFTER), "'" + x + "'");
  }

  /** The marker of a log line is clean. */
  lemma LogMarkerIsClean(repr: string -> string, l: string, k: string, run: nat)
    requires LogFold.PlainRepr(repr) && IsLogLine(repr, l) && LogFold.Key(l) == Some(k)
    ensures IsClean(LogFold.Marker(repr, l, k, run))
  {
    var n := if run == 0 then 0 else run - 1;
    var text := LogFold.MarkerText(repr, k, n);
    NewlineEol(l);
    assert k == l[..|k|] && k == Content(l)[..|k|];
    MarkerIsEscFree(repr, k, n);
    MarkerMatchesNothing(repr, l, k, n);
    LogFold.MarkerTextIsPlain(repr, k, n);
    assert text[|text| - 1] == ')';
    ClosedIsStripped(text);
  }

  lemma ClosedIsStripped(text: string)
    requires NoBreaks(text) && text != "" && !IsBlank(text[|text| - 1])
    ensures NoCrLf(text + "\n") && NoMatch(TrailingWs.TrailingLen, text + "\n")
  {
    var t := text + "\n";
    assert forall i | 0 <= i < |text| :: t[i] == text[i] && !IsBreak(t[i]);
    StrippedIff(t);
  }

  lemma LogLinesAreText(repr: string -> string, s: seq<string>)
    requires LogFold.PlainRepr(repr) && LinesOfText(s) && forall l | l in s :: IsLogLine(repr, l)
    ensures LinesOfText(Fold(LogFold.LogRule(repr), s))
  {
    var rule, u := LogFold.LogRule(repr), (l: string) => IsLogLine(repr, l);
    forall a, k, n: nat | u(a) && rule.key(a) == Some(k)
      ensures var m := rule.marker(a, k, n); IsLine(m) && m[|m| - 1] == '\n' && m[0] != '\n'
    {
      LogMarkerIsLine(repr, a, k, n);
    }
    FoldGivesLines(rule, u, s);
  }

  lemma LogMarkerIsLine(repr: string -> string, a: string, k: string, n: nat)
    requires LogFold.PlainRepr(repr) && IsLogLine(repr, a) && LogFold.Key(a) == Some(k)
    ensures var m := LogFold.Marker(repr, a, k, n); IsLine(m) && m[|m| - 1] == '\n' && m[0] != '\n'
  {
    NewlineEol(a);
    assert k == Content(a)[..|k|];
    LogFold.MarkerIsFoldable(repr, a, k, n);
  }

  /** On log texts the log fold leaves the first three passes nothing to do, and makes no ESC. */
  lemma LogFoldIsClean(repr: string -> string, u: string)
    requires LogFold.PlainRepr(repr) && forall l | l in SplitLines(u) :: IsLogLine(repr, l)
    ensures IsClean(LogFold.LogText(repr, u))
  {
    var rule, s := LogFold.LogRule(repr), SplitLines(u);
    forall x, k, n: nat | IsLogLine(repr, x) && rule.key(x) == Some(k) ensures IsClean(rule.marker(x, k, n)) {
      LogMarkerIsClean(repr, x, k, n);
    }
    FoldKeepsAll(rule, l => IsLogLine(repr, l), IsClean, s);
    SplitGivesLines(u);
    LogLinesAreText(repr, s);
    Settled3ByLine(Fold(rule, s));
    AllInJoin(NotEsc, Fold(rule, s));
  }

  // ---- log texts --------------------------------------------------------------------------

  /** A text without ESC, with "\n" for its only break, in which Python shows every prefix in single quotes
      as it is, once the first three passes have run. */
  predicate IsLogText(repr: string -> string, t: string) {
    && OnlyNewlines(t) && EscFree(t)
    && forall l | l in SplitLines(First3(t)) :: PrefixIsQuoted(repr, l)
  }

  lemma {:induction false} NewlinesAreLone(t: string)
    requires OnlyNewlines(t)
    ensures LoneReturns(t)
  {
    if t != "" {
      assert FeedOrNoBreak(t[0]);
      assert forall i | 0 <= i < |t| - 1 :: t[1..][i] == t[i + 1];
      NewlinesAreLone(t[1..]);
    }
  }

  lemma LogLines(repr: string -> string, t: string)
    requires IsLogText(repr, t)
    ensures LoneReturns(t) && EscFree(First3(t)) && forall l | l in SplitLines(First3(t)) :: IsLogLine(repr, l)
  {
    var u := First3(t);
    NewlinesAreLone(t);
    First3Settles(t);
    First3KeepsEscFree(t);
    HexLiteralsArePlain();
    First3KeepsAll(FeedOrNoBreak, t);
    SplitGivesLines(u);
    JoinOfSplit(u);
    AllInJoin(FeedOrNoBreak, SplitLines(u));
    AllInJoin(NotEsc, SplitLines(u));
    Settled3ByLine(SplitLines(u));
  }

  lemma LogStepIsClean(repr: string -> string, t: string)
    requires LogFold.PlainRepr(repr) && IsLogText(repr, t)
    ensures var v := Step(LogPass(repr), First3(t)); LoneReturns(t) && Settled3(v) && EscFree(LastTwo(v))
  {
    LogLines(repr, t);
    First3Settles(t);
    LogFoldIsClean(repr, First3(t));
    LastTwoKeepsEscFree(Step(LogPass(repr), First3(t)));
  }

  /** Main result on log texts: if the JSON pass is rejected, one run gives what the last two passes make of
      the log fold, and is enough exactly if the log fold is then rejected. */
  lemma LogPipelineIsIdempotentIff(repr: string -> string, json: Pass, t: string)
    requires LogFold.PlainRepr(repr) && IsLogText(repr, StripAnsi(t))
    requires !Applies(json, LastTwo(Step(LogPass(repr), First3(StripAnsi(t)))))
    ensures var ps, y := Algos(LogPass(repr), json), LastTwo(Step(LogPass(repr), First3(StripAnsi(t))));
            && Compressed(ps, t) == y
            && (Compressed(ps, Compressed(ps, t)) == Compressed(ps, t) <==> !Applies(LogPass(repr), y))
  {
    LogStepIsClean(repr, StripAnsi(t));
    EscFreeMatchesNothing(LastTwo(Step(LogPass(repr), First3(StripAnsi(t)))));
    BasePipelineIsIdempotentIff(LogPass(repr), json, t);
  }

  /** In particular one run is enough if the log fold was accepted and no marker makes up a run with the lines
      behind it, or there was no run to fold. */
  lemma LogPipelineIsIdempotent(repr: string -> string, json: Pass, t: string)
    requires LogFold.PlainRepr(repr) && IsLogText(repr, StripAnsi(t))
    requires !Applies(json, LastTwo(Step(LogPass(repr), First3(StripAnsi(t)))))
    requires var u := First3(StripAnsi(t)); if Applies(LogPass(repr), u) then !LogFold.Reopens(repr, SplitLines(u)) else Settled(LogFold.LogRule(repr), SplitLines(u))
    ensures var ps := Algos(LogPass(repr), json);
            Compressed(ps, Compressed(ps, t)) == Compressed(ps, t)
  {
    var u := First3(StripAnsi(t));
    LogFold.LogTextSettlesIff(repr, u);
    LogStepIsClean(repr, StripAnsi(t));
    LogStaysIdle(repr, Step(LogPass(repr), u));
    LogPipelineIsIdempotentIff(repr, json, t);
  }
}
