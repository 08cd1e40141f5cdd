/**
  Log texts on which the base pipeline needs a second run: the log fold is rejected, dedup then takes the
  lines that made it too long, and a second log fold is accepted.
 */
module LogPipelineWitness {
  import opened Ansi
  import opened Driver
  import opened FullPipeline
  import opened LogPipeline
  import opened PipelineIdempotence
  import opened PipelineWitness
  import opened RunFold
  import opened Substitution
  import opened Text
  import opened Wrappers
  import CollapseBlanks
  import Dedup
  import HexDump
  import LogFold
  import RuleRuns
  import TrailingWs

  // ---- three groups of lines under a rule -------------------------------------------------

  lemma FoldOfRun(rule: Rule, run: seq<string>, k: string, rest: seq<string>)
    requires ByKey(rule) && 0 < rule.least <= |run| && forall i | 0 <= i < |run| :: rule.key(run[i]) == Some(k)
    requires rest != [] ==> rule.key(rest[0]) != Some(k)
    ensures Fold(rule, run + rest) == Rendered(rule, run[0], k, |run|) + Fold(rule, rest)
  {
    var s := run + rest;
    assert s[1..] == run[1..] + rest;
    FollowersAre(rule, k, s[1..], |run| - 1);
    assert s[|run|..] == rest;
  }

  lemma FoldOfKeyless(rule: Rule, a: string, rest: seq<string>)
    requires rule.key(a) == None
    ensures Fold(rule, [a] + rest) == [a] + Fold(rule, rest)
  {
    assert ([a] + rest)[1..] == rest;
  }

  /** Two lines without a key, a run and another run. */
  lemma FoldOfGroups(rule: Rule, a: string, b: string, run: seq<string>, k: string, run': seq<string>, k': string)
    requires ByKey(rule) && 0 < rule.least <= |run| && rule.least <= |run'| && k != k'
    requires rule.key(a) == None && rule.key(b) == None
    requires forall i | 0 <= i < |run| :: rule.key(run[i]) == Some(k)
    requires forall i | 0 <= i < |run'| :: rule.key(run'[i]) == Some(k')
    ensures Fold(rule, [a] + ([b] + (run + run')))
         == [a] + ([b] + (Rendered(rule, run[0], k, |run|) + Rendered(rule, run'[0], k', |run'|)))
  {
    FoldOfRun(rule, run', k', []);
    assert run' + [] == run' && Rendered(rule, run'[0], k', |run'|) + [] == Rendered(rule, run'[0], k', |run'|);
    FoldOfRun(rule, run, k, run');
    FoldOfKeyless(rule, b, run + run');
    FoldOfKeyless(rule, a, [b] + (run + run'));
  }

  /** The same if of the second run one line is left. */
  lemma FoldOfGroup(rule: Rule, a: string, b: string, run: seq<string>, k: string, y: string, m: string)
    requires ByKey(rule) && 1 < rule.least <= |run|
    requires rule.key(a) == None && rule.key(b) == None && rule.key(m) == None && rule.key(y) != Some(k)
    requires forall i | 0 <= i < |run| :: rule.key(run[i]) == Some(k)
    ensures Fold(rule, [a] + ([b] + (run + [y, m]))) == [a] + ([b] + (Rendered(rule, run[0], k, |run|) + [y, m]))
  {
    FoldOfRun(rule, run, k, [y, m]);
    FoldOfKeyless(rule, m, []);
    assert [m] + [] == [m] && [y, m][1..] == [m];
    assert Fold(rule, [y, m]) == [y, m];
    FoldOfKeyless(rule, b, run + [y, m]);
    FoldOfKeyless(rule, a, [b] + (run + [y, m]));
  }

  lemma LengthOfGroups(a: string, b: string, xs: seq<string>, ys: seq<string>)
    ensures |Join([a] + ([b] + (xs + ys)))| == |a| + |b| + |Join(xs)| + |Join(ys)|
  {
    JoinOfCons(a, [b] + (xs + ys));
    JoinOfCons(b, xs + ys);
    JoinAppend(xs, ys);
  }

  /** Two runs of five lines, the second of short ones. */
  lemma TwoRunsGrow(rule: Rule, h: string, xs: seq<string>, k: string, y: string, k': string)
    requires ByKey(rule) && rule.least == 5 && rule.keepFirst && k != k' && rule.key(h) == None
    requires |xs| == 5 && (forall i | 0 <= i < 5 :: rule.key(xs[i]) == Some(k)) && rule.key(y) == Some(k')
    requires |Join(xs)| == 55 && |xs[0]| == 11 && |y| == 4
    requires |rule.marker(xs[0], k, 5)| >= 33 && |rule.marker(y, k', 5)| >= 33
    ensures var ls := [h] + ([h] + (xs + Copies(y, 5))); |Join(Fold(rule, ls))| >= |Join(ls)|
  {
    var ys := Copies(y, 5);
    FoldOfGroups(rule, h, h, xs, k, ys, k');
    LengthOfGroups(h, h, xs, ys);
    LengthOfGroups(h, h, Rendered(rule, xs[0], k, 5), Rendered(rule, y, k', 5));
    JoinOfCopies(y, 5);
    assert ys[0] == y;
    JoinOfPair(xs[0], rule.marker(xs[0], k, 5));
    JoinOfPair(y, rule.marker(y, k', 5));
    RenderedPair(rule, xs[0], k);
    RenderedPair(rule, y, k');
  }

  lemma RenderedPair(rule: Rule, x: string, k: string)
    requires rule.keepFirst
    ensures Rendered(rule, x, k, 5) == [x, rule.marker(x, k, 5)]
  {
  }

  /** One run of five lines, and of the other a line and a marker. */
  lemma OneRunShrinks(rule: Rule, h: string, m: string, xs: seq<string>, k: string, y: string, m': string)
    requires ByKey(rule) && rule.least == 5 && rule.keepFirst
    requires rule.key(h) == None && rule.key(m) == None && rule.key(m') == None && rule.key(y) != Some(k)
    requires |xs| == 5 && forall i | 0 <= i < 5 :: rule.key(xs[i]) == Some(k)
    requires |Join(xs)| == 55 && |xs[0]| == 11 && |rule.marker(xs[0], k, 5)| < 44
    ensures var ls := [h] + ([m] + (xs + [y, m'])); |Join(Fold(rule, ls))| < |Join(ls)|
  {
    FoldOfGroup(rule, h, m, xs, k, y, m');
    LengthOfGroups(h, m, xs, [y, m']);
    LengthOfGroups(h, m, Rendered(rule, xs[0], k, 5), [y, m']);
    JoinOfPair(xs[0], rule.marker(xs[0], k, 5));
    RenderedPair(rule, xs[0], k);
  }

  // ---- the lines --------------------------------------------------------------------------

  const X: string := "[x]"
  const Y: string := "[y]"

  function Entry(d: char): string {
    X + "aaaaaa" + [d]
  }

  /** Five lines with the tag "[x]". */
  function Entries(): seq<string> {
    [Entry('1') + "\n", Entry('2') + "\n", Entry('3') + "\n", Entry('4') + "\n", Entry('5') + "\n"]
  }

  /** A long word without tag, ESC or a look of JSON. */
  predicate IsHeadline(w: string) {
    IsWord(w) && |w| >= 46 && EscFree(w) && NotJson(w) && NotSpace(w[0]) && LogFold.LinePrefix(w) == None
  }

  /** A long line twice, five lines with one tag, and five times another tag. */
  function LogLines(w: string): seq<string> {
    [w + "\n"] + ([w + "\n"] + (Entries() + Copies(Y + "\n", 5)))
  }

  lemma HeadlineExists()
    ensures IsHeadline(Repeat('z', 60))
  {
    var w := Repeat('z', 60);
    SpanUnique(IsBlank, w, 0);
    assert w[0..] == w && LogFold.DATE_TIME[0] == '0' && LogFold.TIME[0] == '0';
  }

  lemma TagPrefix(c: string, tag: string)
    requires |c| >= 3 && c[..3] == tag && (tag == X || tag == Y) && (|c| > 3 ==> !IsSpace(c[3]))
    ensures LogFold.LinePrefix(c) == Some(tag)
  {
    assert c[0] == tag[0] == '[' && c[1] == tag[1] && c[2] == tag[2] == ']';
    SpanUnique(IsBlank, c, 0);
    assert c[0..] == c;
    var b := c[1..];
    assert b[..1] == [c[1]] && b[1] == ']';
    SpanUnique(LogFold.NotClosing, b, 1);
    assert LogFold.TagLen(c) == 3;
    var rest := c[3..];
    assert rest != "" ==> rest[0] == c[3];
    SpanUnique(IsSpace, rest, 0);
  }

  /** A dull word closed by a line feed. */
  lemma DullLine(c: string)
    requires NoBreaks(c) && c != "" && All(IsDull, c)
    ensures IsLine(c + "\n") && Content(c + "\n") == c && EolFor(c + "\n") == "\n"
    ensures Dedup.Key(c + "\n") == Some(c + "\n")
  {
    LineLenOfPlain(c, "\n");
    ContentOfAppend(c, "\n");
    assert (c + "\n")[|c|..] == "\n";
    DullIsNoMarker(c);
  }

  /** A line for which the first three passes have nothing to do. */
  predicate IsSmooth(l: string) {
    IsLine(l) && l[|l| - 1] == '\n' && All(IsDull, l) && EscFree(l) && NoCrLf(l)
  }

  predicate HasTag(l: string, tag: string) {
    LogFold.Key(l) == Some(tag)
  }

  lemma EntryChars(d: char)
    requires IsDigit(d)
    ensures NoBreaks(Entry(d)) && All(IsDull, Entry(d)) && EscFree(Entry(d)) && |Entry(d)| == 10
  {
    forall i | 0 <= i < 10 ensures !IsBreak(Entry(d)[i]) && IsDull(Entry(d)[i]) && NotEsc(Entry(d)[i]) {
      assert Entry(d)[i] in "[x]a" || Entry(d)[i] == d;
    }
  }

  lemma EntryLine(d: char)
    requires IsDigit(d)
    ensures var l := Entry(d) + "\n"; IsSmooth(l) && HasTag(l, X) && EolFor(l) == "\n" && |l| == 11
  {
    EntryChars(d);
    DullLine(Entry(d));
    AllInAppend(NotEsc, Entry(d), "\n");
    TagPrefix(Entry(d), X);
  }

  lemma EntriesAre()
    ensures |Entries()| == 5 && Entries()[0] == Entry('1') + "\n"
    ensures forall i | 0 <= i < 5 :: Entries()[i] == Entry(Digit(i + 1)) + "\n"
  {
  }

  lemma EntryAt(i: nat)
    requires i < 5
    ensures |Entries()| == 5 && IsSmooth(Entries()[i]) && HasTag(Entries()[i], X) && EolFor(Entries()[i]) == "\n"
    ensures Entries()[i] == Entry(Digit(i + 1)) + "\n" && Entries()[i][9] == Digit(i + 1) && Entries()[i][1] == 'x'
  {
    EntriesAre();
    EntryLine(Digit(i + 1));
  }

  /** What is used of the five lines. */
  lemma EntriesFacts()
    ensures |Entries()| == 5
    ensures forall i | 0 <= i < 5 :: IsSmooth(Entries()[i]) && HasTag(Entries()[i], X)
    ensures forall i | 0 < i < 5 :: Entries()[i] != Entries()[i - 1]
  {
    forall i | 0 <= i < 5 ensures |Entries()| == 5 && IsSmooth(Entries()[i]) && HasTag(Entries()[i], X) {
      EntryAt(i);
    }
    forall i | 0 < i < 5 ensures Entries()[i] != Entries()[i - 1] {
      EntriesDiffer(i);
    }
    EntryAt(0);
  }

  lemma EntriesDiffer(i: nat)
    requires 0 < i < 5
    ensures |Entries()| == 5 && Entries()[i] != Entries()[i - 1]
  {
    EntryAt(i);
    EntryAt(i - 1);
  }

  lemma EntriesLength()
    ensures |Join(Entries())| == 55 && |Entries()[0]| == 11
  {
    var a, b, c, d, e := Entry('1') + "\n", Entry('2') + "\n", Entry('3') + "\n", Entry('4') + "\n", Entry('5') + "\n";
    assert Entries() == [a] + ([b] + ([c] + ([d] + ([e] + []))));
    JoinOfCons(a, [b] + ([c] + ([d] + ([e] + []))));
    JoinOfCons(b, [c] + ([d] + ([e] + [])));
    JoinOfCons(c, [d] + ([e] + []));
    JoinOfCons(d, [e] + []);
    JoinOfCons(e, []);
  }

  /** The other lines. */
  lemma OtherLine()
    ensures var l := Y + "\n"; IsSmooth(l) && HasTag(l, Y) && EolFor(l) == "\n" && |l| == 4 && Dedup.Key(l) == Some(l)
  {
    DullLine(Y);
    TagPrefix(Y, Y);
  }

  lemma HeadlineFacts(w: string)
    requires IsHeadline(w)
    ensures var l := w + "\n"; IsSmooth(l) && LogFold.Key(l) == None && EolFor(l) == "\n" && Dedup.Key(l) == Some(l)
  {
    DullLine(w);
    AllInAppend(NotEsc, w, "\n");
  }

  // ---- the text ---------------------------------------------------------------------------

  lemma SmoothLines(w: string)
    requires IsHeadline(w)
    ensures forall l | l in LogLines(w) :: IsSmooth(l)
  {
    HeadlineFacts(w);
    OtherLine();
    EntriesFacts();
    AllOfGroups(IsSmooth, w + "\n", w + "\n", Entries(), Copies(Y + "\n", 5));
  }

  lemma AllOfGroups(p: string -> bool, a: string, b: string, xs: seq<string>, ys: seq<string>)
    requires p(a) && p(b) && (forall i | 0 <= i < |xs| :: p(xs[i])) && (forall i | 0 <= i < |ys| :: p(ys[i]))
    ensures forall l | l in [a] + ([b] + (xs + ys)) :: p(l)
  {
  }

  lemma SmoothText(ls: seq<string>)
    requires forall l | l in ls :: IsSmooth(l)
    ensures var t := Join(ls);
            && LinesOfText(ls) && SplitLines(t) == ls && All(IsDull, t) && EscFree(t) && NoCrLf(t)
  {
    forall i | 0 <= i < |ls| ensures IsLine(ls[i]) && ls[i][|ls[i]| - 1] == '\n' {
      assert IsSmooth(ls[i]);
    }
    ClosedLinesAreText(ls);
    SplitOfJoin(ls);
    AllInJoin(IsDull, ls);
    AllInJoin(NotEsc, ls);
    NoCrLfByLine(ls);
  }

  lemma LogTextFacts(w: string)
    requires IsHeadline(w)
    ensures var t := Join(LogLines(w)); SplitLines(t) == LogLines(w) && EscFree(t) && NotJson(t)
    ensures var t := Join(LogLines(w)); First3(t) == t && LoneReturns(t) && Settled3(t)
  {
    var t := Join(LogLines(w));
    SmoothLines(w);
    SmoothText(LogLines(w));
    DullTextStays(t);
    SubOfNoMatch(TrailingWs.TrailingLen, TrailingWs.Erase, t);
    SubOfNoMatch(RuleRuns.RuleLen, RuleRuns.Eight, t);
    SubOfNoMatch(HexDump.DumpLen, HexDump.Marker, t);
    StrippedIsLone(t);
    assert t[0] == w[0] && NotSpace(w[0]);
  }

  // ---- what the passes do -----------------------------------------------------------------

  lemma LogMarkerLength(repr: string -> string, l: string, tag: string)
    requires EolFor(l) == "\n" && |tag| == 3 && LogFold.Strip(tag) == tag
    ensures |LogFold.Marker(repr, l, tag, 5)| == 33 + |repr(tag)|
  {
    assert |Dec(4)| == 1 && |LogFold.BEFORE| == 3 && |LogFold.AFTER| == 24;
  }

  lemma TagsAreStripped()
    ensures LogFold.Strip(X) == X && LogFold.Strip(Y) == Y && X != Y
  {
    assert X[1] != Y[1];
  }

  /** The log fold makes the text longer: the second run of tags is short. */
  lemma LogIsRejected(repr: string -> string, w: string)
    requires IsHeadline(w)
    ensures !Applies(LogPass(repr), Join(LogLines(w)))
  {
    var rule, h, xs, y := LogFold.LogRule(repr), w + "\n", Entries(), Y + "\n";
    LogFold.LogRuleByKey(repr);
    LogTextFacts(w);
    HeadlineFacts(w);
    EntriesFacts();
    EntryAt(0);
    OtherLine();
    TagsAreStripped();
    EntriesLength();
    LogMarkerLength(repr, xs[0], X);
    LogMarkerLength(repr, y, Y);
    TwoRunsGrow(rule, h, xs, X, y, Y);
  }

  /** A line that the next one does not repeat. */
  lemma DedupKeepsLine(a: string, rest: seq<string>)
    requires rest != [] ==> rest[0] != a
    ensures Dedup.DedupLines([a] + rest) == [a] + Dedup.DedupLines(rest)
  {
    assert ([a] + rest)[1..] == rest;
  }

  lemma {:induction false} DedupKeepsLines(xs: seq<string>, rest: seq<string>)
    requires forall i | 0 < i < |xs| :: xs[i] != xs[i - 1]
    requires xs != [] && rest != [] ==> xs[|xs| - 1] != rest[0]
    ensures Dedup.DedupLines(xs + rest) == xs + Dedup.DedupLines(rest)
  {
    if xs == [] {
      assert xs + rest == rest;
    } else {
      assert xs + rest == [xs[0]] + (xs[1..] + rest);
      DedupKeepsLine(xs[0], xs[1..] + rest);
      DedupKeepsLines(xs[1..], rest);
    }
  }

  lemma DedupOfGroups(h: string, xs: seq<string>, y: string)
    requires Dedup.Key(h) == Some(h) && Dedup.Key(y) == Some(y) && xs != [] && xs[0] != h && xs[|xs| - 1] != y
    requires forall i | 0 < i < |xs| :: xs[i] != xs[i - 1]
    ensures Dedup.DedupLines([h] + ([h] + (xs + Copies(y, 5))))
         == [h] + ([Dedup.Marker(h, h, 2)] + (xs + [y, Dedup.Marker(y, y, 5)]))
  {
    var rest := xs + Copies(y, 5);
    TwoCopies(h, rest);
    TwoCopies(h, Dedup.DedupLines(rest));
    FoldRunOfTwo(h, rest);
    DedupKeepsLines(xs, Copies(y, 5));
    FoldOfCopies(Dedup.DEDUP, y);
  }

  lemma TwoCopies(h: string, rest: seq<string>)
    ensures [h] + ([h] + rest) == Copies(h, 2) + rest
    ensures var m := Dedup.Marker(h, h, 2); [h, m] + rest == [h] + ([m] + rest)
  {
    assert Copies(h, 2) == [h, h];
  }

  lemma FoldOfCopies(rule: Rule, y: string)
    requires 0 < rule.least <= 5 && rule.keepFirst && rule.key(y) == Some(y) && rule.same(y, y)
    ensures Fold(rule, Copies(y, 5)) == [y, rule.marker(y, y, 5)]
  {
    RunIsFolded(rule, Copies(y, 5), y, []);
    RenderedPair(rule, y, y);
    assert Copies(y, 5) + [] == Copies(y, 5);
  }

  /** What dedup leaves. */
  function Deduped(w: string): seq<string> {
    [w + "\n"] + ([Dedup.MarkerText(1) + "\n"] + (Entries() + [Y + "\n", Dedup.MarkerText(4) + "\n"]))
  }

  lemma DedupOfLog(w: string)
    requires IsHeadline(w)
    ensures Dedup.DedupLines(LogLines(w)) == Deduped(w)
  {
    HeadlineFacts(w);
    EntriesFacts();
    EntryAt(0);
    EntryAt(4);
    OtherLine();
    assert HasTag(Entries()[0], X) && HasTag(Entries()[4], X);
    TagsAreStripped();
    DedupOfGroups(w + "\n", Entries(), Y + "\n");
  }

  lemma DedupMarkers()
    ensures |Dedup.MarkerText(1)| == 30 && |Dedup.MarkerText(4)| == 30
  {
    assert |Dec(1)| == 1 && |Dec(4)| == 1 && |Dedup.BEFORE| == 3 && |Dedup.AFTER| == 26;
  }

  lemma DedupIsAccepted(w: string)
    requires IsHeadline(w)
    ensures GuardedDedup(UNIT, Join(LogLines(w))) == Join(Deduped(w)) && SplitLines(Join(Deduped(w))) == Deduped(w)
  {
    var h, xs, y := w + "\n", Entries(), Y + "\n";
    var t := Join(LogLines(w));
    LogTextFacts(w);
    DedupOfLog(w);
    Dedup.DedupTextSplits(t);
    LengthOfGroups(h, h, xs, Copies(y, 5));
    LengthOfGroups(h, Dedup.MarkerText(1) + "\n", xs, [y, Dedup.MarkerText(4) + "\n"]);
    JoinOfCopies(y, 5);
    JoinOfPair(y, Dedup.MarkerText(4) + "\n");
    DedupMarkers();
    WeighUnit(t);
    WeighUnit(Join(Deduped(w)));
  }

  lemma {:induction false} NoBlankLines(ls: seq<string>, c: nat)
    requires forall i | 0 <= i < |ls| :: ls[i] != "\n"
    ensures CapLines(ls, c) == ls
  {
    if ls != [] {
      NoBlankLines(ls[1..], FeedsAtEnd(ls[0]));
    }
  }

  lemma DedupedIsNotBlank(w: string)
    requires w != ""
    ensures forall i | 0 <= i < |Deduped(w)| :: Deduped(w)[i] != "\n"
  {
    EntriesAre();
    DedupMarkers();
    AllOfGroups(l => l != "\n", w + "\n", Dedup.MarkerText(1) + "\n", Entries(), [Y + "\n", Dedup.MarkerText(4) + "\n"]);
  }

  lemma LastTwoOfLog(w: string)
    requires IsHeadline(w)
    ensures LastTwo(Join(LogLines(w))) == Join(Deduped(w)) && SplitLines(Join(Deduped(w))) == Deduped(w)
  {
    var t := Join(LogLines(w));
    LogTextFacts(w);
    DedupIsAccepted(w);
    LastTwoSettles(t);
    CollapseByLine(GuardedDedup(UNIT, t));
    DedupedIsNotBlank(w);
    NoBlankLines(Deduped(w), 0);
  }

  /** Now the run of five lines is worth folding. */
  lemma LogIsAccepted(repr: string -> string, w: string)
    requires IsHeadline(w) && |repr(X)| <= 10
    ensures Applies(LogPass(repr), Join(Deduped(w)))
  {
    var rule, h, xs, y := LogFold.LogRule(repr), w + "\n", Entries(), Y + "\n";
    LogFold.LogRuleByKey(repr);
    LastTwoOfLog(w);
    HeadlineFacts(w);
    EntriesFacts();
    EntryAt(0);
    OtherLine();
    TagsAreStripped();
    EntriesLength();
    LogMarkerLength(repr, xs[0], X);
    MarkerHasNoPrefix(h, 1);
    MarkerHasNoPrefix(h, 4);
    OneRunShrinks(rule, h, Dedup.MarkerText(1) + "\n", xs, X, y, Dedup.MarkerText(4) + "\n");
  }

  /** Main result: on every such text, of plain log lines, the base pipeline needs a second run. The log
      fold is rejected because the marker of the second run is longer than the run; dedup shortens that
      run, and then the log fold is accepted. */
  lemma LogPipelineIsNotIdempotent(repr: string -> string, json: Pass, w: string)
    requires Harmless(json) && |repr(X)| <= 10 && IsHeadline(w)
    ensures var ps, t := Algos(LogPass(repr), json), Join(LogLines(w));
            Compressed(ps, Compressed(ps, t)) != Compressed(ps, t)
  {
    LogTextFacts(w);
    EscFreeStays(Join(LogLines(w)));
    LogIsRejected(repr, w);
    LastTwoOfLog(w);
    LogIsAccepted(repr, w);
    PlainPipelineIsIdempotentIff(LogPass(repr), json, Join(LogLines(w)));
  }
}
