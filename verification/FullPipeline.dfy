/**
  The full list of base passes, on the texts of `PipelineIdempotence`: exactly when one run reaches a
  fixpoint, with any log and JSON pass; and sufficient conditions on the text.
 */
module FullPipeline {
  import opened Ansi
  import opened Driver
  import opened PipelineIdempotence
  import opened RunFold
  import opened Substitution
  import opened Text
  import opened Wrappers
  import CollapseBlanks
  import Dedup
  import HexDump
  import RuleRuns
  import TrailingWs

  const ANSI: Pass := Pass("strip_ansi", (t: string) => Some(StripAnsi(t)))

  /** `ALGOS`; two of its passes are parameters. */
  function Algos(log: Pass, json: Pass): seq<Pass> {
    [ANSI, TRAILING, RULES, DUMPS, log, REPEATS, BLANKS, json]
  }

  /** The passes in their order, and the text function each of the modelled ones runs. */
  lemma PassesAre(log: Pass, json: Pass, t: string)
    requires log.name == "fenced_log_fold" && json.name == "minify_json"
    ensures var ps := Algos(log, json);
            && |ps| == 8 && ps[4] == log && ps[7] == json
            && Names(ps) == ["strip_ansi", "trailing_ws", "rule_runs", "hex_dump_fold", "fenced_log_fold",
                             "dedup_lines", "collapse_blanks", "minify_json"]
            && ps[0].run(t) == Some(StripAnsi(t)) && ps[1].run(t) == Some(TrailingWs.Strip(t))
            && ps[2].run(t) == Some(RuleRuns.Shorten(t)) && ps[3].run(t) == Some(HexDump.Fold(t))
            && ps[5].run(t) == Some(Dedup.DedupText(t)) && ps[6].run(t) == Some(CollapseBlanks.Collapse(t))
  {
    NamesAre(Algos(log, json), ["strip_ansi", "trailing_ws", "rule_runs", "hex_dump_fold", "fenced_log_fold",
                                "dedup_lines", "collapse_blanks", "minify_json"]);
  }

  lemma RunAllOfEight(a: Pass, b: Pass, c: Pass, d: Pass, e: Pass, f: Pass, g: Pass, h: Pass, t: string)
    ensures RunAll([a, b, c, d, e, f, g, h], t)
         == Step(h, Step(g, Step(f, Step(e, Step(d, Step(c, Step(b, Step(a, t))))))))
  {
    assert [a, b, c, d, e, f, g, h] == [a] + ([b] + ([c] + [d, e, f, g, h]));
    RunAllCons(a, [b] + ([c] + [d, e, f, g, h]), t);
    RunAllCons(b, [c] + [d, e, f, g, h], Step(a, t));
    RunAllCons(c, [d, e, f, g, h], Step(b, Step(a, t)));
    RunAllOfFive(d, e, f, g, h, Step(c, Step(b, Step(a, t))));
  }

  // ---- exactly when one run is enough -----------------------------------------------------

  /** What the last two passes make of a text that the first three leave alone. */
  function LastTwo(v: string): string {
    CollapseBlanks.Collapse(GuardedDedup(UNIT, v))
  }

  lemma LastTwoSettles(v: string)
    requires Settled3(v)
    ensures Settled3(GuardedDedup(UNIT, v)) && Settled3(LastTwo(v)) && LastTwo(LastTwo(v)) == LastTwo(v)
    ensures Step(BLANKS, Step(REPEATS, v)) == LastTwo(v)
  {
    DedupKeeps(v);
    CollapseKeeps(GuardedDedup(UNIT, v));
    DedupStaysRejected(UNIT, v);
    StepsOfFirst3(v);
    StepOfBlanks(GuardedDedup(UNIT, v));
  }

  lemma FiveAreIdle(y: string)
    requires Settled3(y) && LastTwo(y) == y
    ensures Step(TRAILING, y) == y && Step(RULES, y) == y && Step(DUMPS, y) == y
    ensures Step(REPEATS, y) == y && Step(BLANKS, y) == y
  {
    First3OfSettled(y);
    LastTwoSettles(y);
  }

  lemma FirstThreeSteps(t: string)
    requires LoneReturns(t)
    ensures Step(DUMPS, Step(RULES, Step(TRAILING, t))) == First3(t)
  {
    StepsOfFirst3(t);
    StepsOfFirst3(TrailingWs.Strip(t));
    StepsOfFirst3(RuleRuns.Shorten(TrailingWs.Strip(t)));
  }

  lemma OthersDecide(a: Pass, b: Pass, c: Pass, d: Pass, e: Pass, f: Pass, g: Pass, h: Pass, y: string)
    requires !Applies(b, y) && !Applies(c, y) && !Applies(d, y) && !Applies(f, y) && !Applies(g, y) && !Applies(h, y)
    ensures Compressed([a, b, c, d, e, f, g, h], y) == y <==> !Applies(a, y) && !Applies(e, y)
  {
    var ps := [a, b, c, d, e, f, g, h];
    FixpointIff(ps, y);
    assert ps[0] == a && ps[4] == e;
  }

  lemma AnsiStep(t: string)
    ensures Step(ANSI, t) == StripAnsi(t) && (Applies(ANSI, t) <==> !NoMatch(SequenceLen, t))
  {
    EraseShortens();
    SubChangesIffShorter(SequenceLen, Ansi.Erase, t);
  }

  /** Main result on the full list, with any log and JSON pass: let `v` be the text after the log pass and `y`
      what the last two passes make of it. If the first three line passes have nothing to do on `v` (which
      goes without saying if the log pass was rejected), and the JSON pass is rejected, then one run gives
      `y`, and a second run changes it exactly if `y` has an escape sequence or the log pass would be
      accepted on it. */
  lemma BasePipelineIsIdempotentIff(log: Pass, json: Pass, t: string)
    requires var u := First3(StripAnsi(t)); Applies(log, u) ==> Settled3(Step(log, u))
    requires LoneReturns(StripAnsi(t)) && !Applies(json, LastTwo(Step(log, First3(StripAnsi(t)))))
    ensures var ps, y := Algos(log, json), LastTwo(Step(log, First3(StripAnsi(t))));
            && Compressed(ps, t) == y
            && (Compressed(ps, Compressed(ps, t)) == Compressed(ps, t)
                <==> NoMatch(SequenceLen, y) && !Applies(log, y))
  {
    var a := StripAnsi(t);
    var v := Step(log, First3(a));
    var y := LastTwo(v);
    AnsiStep(t);
    AnsiStep(y);
    First3Settles(a);
    FirstThreeSteps(a);
    LastTwoSettles(v);
    CompressedIsRunAll(Algos(log, json), t);
    RunAllOfEight(ANSI, TRAILING, RULES, DUMPS, log, REPEATS, BLANKS, json, t);
    FiveAreIdle(y);
    OthersDecide(ANSI, TRAILING, RULES, DUMPS, log, REPEATS, BLANKS, json, y);
  }

  // ---- texts without ESC ------------------------------------------------------------------

  lemma EscFreeLiterals()
    ensures EscFree(HexDump.BEFORE) && EscFree(HexDump.AFTER)
    ensures EscFree(Dedup.BEFORE) && EscFree(Dedup.AFTER) && EscFree("\n") && EscFree("\r")
  {
  }

  lemma First3KeepsEscFree(t: string)
    requires EscFree(t)
    ensures EscFree(First3(t))
  {
    EscFreeLiterals();
    First3KeepsAll(NotEsc, t);
  }

  /** A property of lines that the dedup markers have is kept by the last two passes. */
  lemma LinesOfLastTwo(p: string -> bool, v: string)
    requires Settled3(v)
    requires forall l | l in SplitLines(v) :: p(l)
    requires forall n :: p(Dedup.MarkerText(n) + "\n") && p(Dedup.MarkerText(n) + "\r")
    ensures forall l | l in SplitLines(LastTwo(v)) :: p(l)
  {
    var z := GuardedDedup(UNIT, v);
    LastTwoSettles(v);
    SplitGivesLines(v);
    JoinOfSplit(v);
    NoCrLfByLine(SplitLines(v));
    var q := (l: string) => IsLine(l) && NoCrLf(l) && p(l);
    forall x, k, n: nat | q(x) && Dedup.Key(x) == Some(k) ensures q(Dedup.Marker(x, k, n)) {
      var count := if n == 0 then 0 else n - 1;
      EolOfLine(x);
      Dedup.MarkerReadsBack(count);
      MarkerLine(Dedup.MarkerText(count), x);
      MarkerTextSettled(count, EolFor(x));
    }
    FoldKeepsAll(Dedup.DEDUP, q, q, SplitLines(v));
    Dedup.DedupTextSplits(v);
    assert forall l | l in SplitLines(z) :: p(l);
    CollapseByLine(z);
    SplitGivesLines(z);
    CapLinesShape(SplitLines(z), 0);
  }

  lemma LastTwoKeepsEscFree(v: string)
    requires Settled3(v) && EscFree(v)
    ensures EscFree(LastTwo(v))
  {
    JoinOfSplit(v);
    AllInJoin(NotEsc, SplitLines(v));
    forall n ensures EscFree(Dedup.MarkerText(n) + "\n") && EscFree(Dedup.MarkerText(n) + "\r") {
      EscFreeLiterals();
      NumberedHasAll(NotEsc, Dedup.BEFORE, n, Dedup.AFTER);
      AllInAppend(NotEsc, Dedup.MarkerText(n), "\n");
      AllInAppend(NotEsc, Dedup.MarkerText(n), "\r");
    }
    LinesOfLastTwo(EscFree, v);
    JoinOfSplit(LastTwo(v));
    AllInJoin(NotEsc, SplitLines(LastTwo(v)));
  }

  // ---- the first visible character --------------------------------------------------------

  function Lead(t: string): Option<char> {
    if t == "" then None else if IsSpace(t[0]) then Lead(t[1..]) else Some(t[0])
  }

  /** `minify_json` gives such a text back: it does not start, but for white space, with a brace or a
      bracket. */
  predicate NotJson(t: string) {
    Lead(t).Some? ==> Lead(t).value != '{' && Lead(t).value != '['
  }

  lemma {:induction false} LeadOfAppend(a: string, b: string)
    ensures Lead(a + b) == if Lead(a).Some? then Lead(a) else Lead(b)
  {
    if a == "" {
      assert a + b == b;
    } else {
      assert (a + b)[1..] == a[1..] + b;
      LeadOfAppend(a[1..], b);
    }
  }

  lemma {:induction false} LeadOfSpaces(a: string)
    requires All(IsSpace, a)
    ensures Lead(a) == None
  {
    if a != "" {
      assert IsSpace(a[0]);
      LeadOfSpaces(a[1..]);
    }
  }

  /** Matches of white space give white space, other matches keep their first character. */
  ghost predicate KeepsLead(m: Pattern, r: string -> string) {
    forall s | Matches(m, s) ::
      var x, y := s[..m(s)], r(s[..m(s)]);
      if IsSpace(s[0]) then All(IsSpace, x) && All(IsSpace, y) else y != "" && y[0] == s[0]
  }

  lemma {:induction false} LeadOfSub(m: Pattern, r: string -> string, t: string)
    requires KeepsLead(m, r)
    ensures Lead(Sub(m, r, t)) == Lead(t)
    decreases |t|
  {
    if t != "" {
      var k := if Matches(m, t) then m(t) else 1;
      var rest := t[k..];
      LeadOfSub(m, r, rest);
      Rejoin(t, k);
      if Matches(m, t) {
        var x, y := t[..k], r(t[..k]);
        LeadOfAppend(x, rest);
        LeadOfAppend(y, Sub(m, r, rest));
        if IsSpace(t[0]) {
          LeadOfSpaces(x);
          LeadOfSpaces(y);
        }
      } else {
        LeadOfAppend([t[0]], Sub(m, r, rest));
        assert ([t[0]] + Sub(m, r, rest))[1..] == Sub(m, r, rest);
      }
    }
  }

  lemma TrailingKeepsLead()
    ensures KeepsLead(TrailingWs.TrailingLen, TrailingWs.Erase)
  {
    forall s | Matches(TrailingWs.TrailingLen, s) ensures IsSpace(s[0]) && All(IsSpace, s[..TrailingWs.TrailingLen(s)]) {
      var k := Span(IsBlank, s);
      assert IsBlank(s[..k][0]);
      forall i | 0 <= i < k ensures IsSpace(s[i]) {
        assert IsBlank(s[..k][i]);
      }
    }
  }

  lemma RulesKeepLead()
    ensures KeepsLead(RuleRuns.RuleLen, RuleRuns.Eight)
  {
    forall s | Matches(RuleRuns.RuleLen, s)
      ensures !IsSpace(s[0]) && RuleRuns.Eight(s[..RuleRuns.RuleLen(s)]) != ""
              && RuleRuns.Eight(s[..RuleRuns.RuleLen(s)])[0] == s[0]
    {
      assert s[..RuleRuns.RuleLen(s)][0] == s[0];
    }
  }

  lemma {:induction false} LeadOfDumps(t: string)
    requires Lead(t).Some? ==> !HexDump.IsHex(Lead(t).value)
    ensures Lead(HexDump.Fold(t)) == Lead(t)
  {
    if t != "" {
      assert !Matches(HexDump.DumpLen, t);
      assert HexDump.Fold(t)[1..] == HexDump.Fold(t[1..]);
      if IsSpace(t[0]) {
        LeadOfDumps(t[1..]);
      }
    }
  }

  /** A text whose first visible character is no brace, bracket or hex digit is not made to look like
      JSON by the first three passes. */
  lemma First3KeepsNotJson(t: string)
    requires NotJson(t) && (Lead(t).Some? ==> !HexDump.IsHex(Lead(t).value))
    ensures NotJson(First3(t))
  {
    TrailingKeepsLead();
    RulesKeepLead();
    LeadOfSub(TrailingWs.TrailingLen, TrailingWs.Erase, t);
    LeadOfSub(RuleRuns.RuleLen, RuleRuns.Eight, TrailingWs.Strip(t));
    LeadOfDumps(RuleRuns.Shorten(TrailingWs.Strip(t)));
  }

  lemma LeadOfMarker(first: string, k: string, n: nat)
    ensures Lead(Dedup.Marker(first, k, n)) == Some(ELLIPSIS)
  {
    Dedup.MarkerReadsBack(if n == 0 then 0 else n - 1);
  }

  lemma {:induction false} LeadOfDedup(ls: seq<string>)
    ensures var lead := Lead(Join(Dedup.DedupLines(ls))); lead == Lead(Join(ls)) || lead == Some(ELLIPSIS)
    decreases |ls|
  {
    if ls != [] {
      var n := HeadLength(Dedup.DEDUP, ls);
      var out := Dedup.DedupLines(ls);
      LeadOfDedup(ls[n..]);
      LeadOfAppend(ls[0], Join(ls[1..]));
      if FoldsAt(Dedup.DEDUP, ls) {
        FirstFolded(Dedup.DEDUP, ls);
        LeadOfMarker(ls[0], Dedup.DEDUP.key(ls[0]).value, n);
        LeadOfAppend(out[0], Join(out[1..]));
        LeadOfAppend(out[1], Join(out[2..]));
        assert out[1..][1..] == out[2..];
      } else {
        FirstKept(Dedup.DEDUP, ls);
        LeadOfAppend(ls[0], Join(out[1..]));
      }
    }
  }

  lemma {:induction false} LeadOfCap(t: string, c: nat)
    ensures Lead(CollapseBlanks.Cap(t, c)) == Lead(t)
  {
    if t != "" {
      var d := if t[0] != '\n' then 0 else if c < 3 then c + 1 else c;
      LeadOfCap(t[1..], d);
      assert ([t[0]] + CollapseBlanks.Cap(t[1..], d))[1..] == CollapseBlanks.Cap(t[1..], d);
    }
  }

  lemma LastTwoKeepsNotJson(v: string)
    requires Settled3(v) && NotJson(v)
    ensures NotJson(LastTwo(v))
  {
    var z := GuardedDedup(UNIT, v);
    LastTwoSettles(v);
    LeadOfDedup(SplitLines(v));
    JoinOfSplit(v);
    CollapseBlanks.CollapseIsCap(z);
    LeadOfCap(z, 0);
  }

  /** The JSON pass leaves texts alone that do not look like JSON. */
  ghost predicate Harmless(json: Pass) {
    forall s | NotJson(s) :: !Applies(json, s)
  }

  lemma EscFreeMatchesNothing(t: string)
    requires EscFree(t)
    ensures NoMatch(SequenceLen, t)
  {
    EraseShortens();
    EscFreeStays(t);
    SubChangesIffShorter(SequenceLen, Ansi.Erase, t);
  }

  /** A text in which every ESC belongs to an escape sequence and that does not look like JSON after its first
      passes: there one run is enough exactly if the log pass is rejected at its end. */
  lemma PlainPipelineIsIdempotentIff(log: Pass, json: Pass, t: string)
    requires Harmless(json) && LoneReturns(StripAnsi(t)) && EscFree(StripAnsi(t))
    requires var u := First3(StripAnsi(t)); Applies(log, u) ==> Settled3(Step(log, u)) && EscFree(Step(log, u))
    requires NotJson(Step(log, First3(StripAnsi(t))))
    ensures var ps, y := Algos(log, json), LastTwo(Step(log, First3(StripAnsi(t))));
            && Compressed(ps, t) == y
            && (Compressed(ps, Compressed(ps, t)) == Compressed(ps, t) <==> !Applies(log, y))
  {
    var a := StripAnsi(t);
    var v := Step(log, First3(a));
    First3Settles(a);
    First3KeepsEscFree(a);
    LastTwoKeepsEscFree(v);
    LastTwoKeepsNotJson(v);
    EscFreeMatchesNothing(LastTwo(v));
    BasePipelineIsIdempotentIff(log, json, t);
  }
}
