/**
  Texts with carriage returns before line feeds on which the base pipeline is not idempotent: one between
  blanks, and texts that mix the two line ends.
 */
module PipelineWitness {
  import opened Driver
  import opened PipelineIdempotence
  import opened RunFold
  import opened Substitution
  import opened Text
  import opened Wrappers
  import BlankMerging
  import CollapseBlanks
  import Dedup
  import HexDump
  import RuleRuns
  import TrailingWs

  lemma {:induction false} GroupsTakeRoom(s: string)
    ensures CollapseBlanks.Groups(s) <= |s|
    decreases |s|
  {
    if CollapseBlanks.GroupLen(s) > 0 {
      GroupsTakeRoom(s[CollapseBlanks.GroupLen(s)..]);
    }
  }

  lemma NoRule(t: string)
    requires |t| < 10
    ensures RuleRuns.Shorten(t) == t
  {
    TooShort(RuleRuns.RuleLen, 10, t);
    SubOfNoMatch(RuleRuns.RuleLen, RuleRuns.Eight, t);
  }

  lemma NoDump(t: string)
    requires |t| < 95
    ensures HexDump.Fold(t) == t
  {
    forall s | Matches(HexDump.DumpLen, s) ensures |s| >= 95 {
      HexDump.DumpIsHex(s);
    }
    TooShort(HexDump.DumpLen, 95, t);
    SubOfNoMatch(HexDump.DumpLen, HexDump.Marker, t);
  }

  lemma NoBlankGroups(t: string)
    requires |t| <= 4 && t != "" && !IsBlank(t[0]) && !IsBreak(t[0])
    ensures CollapseBlanks.Collapse(t) == t
  {
    forall s | Matches(CollapseBlanks.BlanksLen, s) ensures |s| >= 4 {
      GroupsTakeRoom(s);
    }
    TooShort(CollapseBlanks.BlanksLen, 4, t[1..]);
    assert CollapseBlanks.Groups(t) == 0;
    SubOfNoMatch(CollapseBlanks.BlanksLen, CollapseBlanks.Three, t);
  }

  lemma NoRepeat(t: string)
    requires |SplitLines(t)| == 1
    ensures Dedup.DedupText(t) == t
  {
    FewLinesStay(Dedup.DEDUP, SplitLines(t));
    JoinOfSplit(t);
  }

  /** One short line that is not blank: nothing for the passes after `trailing_ws`. */
  lemma ShortLineStays(t: string)
    requires |t| == 4 && !IsBlank(t[0]) && !IsBreak(t[0]) && |SplitLines(t)| == 1
    ensures Step(BLANKS, Step(REPEATS, Step(DUMPS, Step(RULES, t)))) == t
  {
    NoRule(t);
    NoDump(t);
    NoRepeat(t);
    NoBlankGroups(t);
  }

  /** The first run takes the blank at the line end, and so uncovers the one before. */
  lemma StripOfWitness()
    ensures TrailingWs.Strip("a \r \n") == "a \r\n"
  {
    var t := "a \r \n";
    var u, v, w := t[1..], t[2..], t[3..];
    assert u == " \r \n" && v == "\r \n" && w == " \n" && u[1..] == v && v[1..] == w;
    SpanUnique(IsBlank, u, 1);
    SpanUnique(IsBlank, w, 1);
    assert w[1..] == "\n" && TrailingWs.Strip("\n") == "\n";
    TrailingWs.StripHead(t);
    TrailingWs.StripHead(u);
    TrailingWs.StripHead(v);
    assert TrailingWs.Strip(w) == "\n";
  }

  lemma OneLine()
    ensures |SplitLines("a \r\n")| == 1
  {
    var y := "a \r\n";
    assert y[1..] == " \r\n" && y[1..][1..] == "\r\n";
    assert LineLen("\r\n") == 2 && LineLen(y[1..]) == 3 && LineLen(y) == 4;
  }

  /** Main result: on "a \r \n" the five passes need a second run. */
  lemma FivePassesAreNotIdempotent()
    ensures var ps, t := [TRAILING, RULES, DUMPS, REPEATS, BLANKS], "a \r \n";
            && Compressed(ps, t) == "a \r\n"
            && Compressed(ps, Compressed(ps, t)) != Compressed(ps, t)
  {
    var ps, t, y := [TRAILING, RULES, DUMPS, REPEATS, BLANKS], "a \r \n", "a \r\n";
    StripOfWitness();
    OneLine();
    ShortLineStays(y);
    CompressedIsRunAll(ps, t);
    RunAllOfFive(TRAILING, RULES, DUMPS, REPEATS, BLANKS, t);
    assert Step(TRAILING, t) == y;
    TrailingWs.UncoveringWitness();
    TrailingWs.StripIsIdempotentIff(t);
    StepsOfFirst3(y);
    FixpointIff(ps, y);
    assert ps[0] == TRAILING;
  }

  // ---- texts that mix the two line ends ---------------------------------------------------

  /** No blank and no rule character: nothing for the first three passes. */
  predicate IsDull(c: char) {
    !IsBlank(c) && !RuleRuns.IsRule(c)
  }

  lemma {:induction false} DullTextStays(t: string)
    requires All(IsDull, t)
    ensures NoMatch(TrailingWs.TrailingLen, t) && NoMatch(RuleRuns.RuleLen, t) && NoMatch(HexDump.DumpLen, t)
  {
    if t != "" {
      assert IsDull(t[0]);
      assert forall i | 0 <= i < |t| - 1 :: t[1..][i] == t[i + 1];
      DullTextStays(t[1..]);
      NoDumpAtDull(t);
    }
  }

  lemma NoDumpAtDull(t: string)
    requires All(IsDull, t)
    ensures !Matches(HexDump.DumpLen, t)
  {
    if |t| > 2 {
      assert IsDull(t[2]);
      assert t[2..][0] == t[2];
    }
  }

  lemma DullSteps(t: string)
    requires All(IsDull, t)
    ensures Step(DUMPS, Step(RULES, Step(TRAILING, t))) == t
  {
    DullTextStays(t);
    SubOfNoMatch(TrailingWs.TrailingLen, TrailingWs.Erase, t);
    SubOfNoMatch(RuleRuns.RuleLen, RuleRuns.Eight, t);
    SubOfNoMatch(HexDump.DumpLen, HexDump.Marker, t);
    StepsOfFirst3(t);
  }

  /** A line long enough to be worth folding, without breaks or blanks. */
  predicate IsWord(x: string) {
    |x| >= 40 && NoBreaks(x) && All(IsDull, x)
  }

  lemma WordExists()
    ensures IsWord(Repeat('a', 40))
  {
  }

  lemma {:induction false} DullIsNoMarker(c: string)
    requires All(IsDull, c)
    ensures !Dedup.EndsWithMarker(c)
  {
    if c != "" {
      assert forall i | 0 <= i < |c| - 1 :: c[1..][i] == c[i + 1];
      DullIsNoMarker(c[1..]);
    }
    if |c| > 1 {
      assert IsDull(c[1]) && Dedup.BEFORE[1] == ' ';
    }
  }

  lemma WordLine(x: string, e: string)
    requires IsWord(x) && (e == "\n" || e == "\r\n")
    ensures IsLine(x + e) && Content(x + e) == x && Dedup.Key(x + e) == Some(x + e)
  {
    LineLenOfPlain(x, e);
    ContentOfAppend(x, e);
    DullIsNoMarker(x);
  }

  lemma BlankLine(e: string)
    requires e == "\n" || e == "\r\n"
    ensures IsLine(e) && Content(e) == "" && Dedup.Key(e) == None
  {
    LineLenOfPlain("", e);
    ContentOfAppend("", e);
    assert "" + e == e;
  }

  /** A word ended by "\r\n", the same word ended by "\n", and blank lines of which the last ends in "\r\n". */
  function Mixed(x: string): seq<string> {
    [x + "\r\n", x + "\n"] + Copies("\n", 5) + ["\r\n"]
  }

  function Unmixed(x: string): seq<string> {
    [x + "\r\n", x + "\r\n", "\r\n", "\r\n"]
  }

  lemma MixedLines(x: string)
    requires IsWord(x)
    ensures LinesOfText(Mixed(x)) && LinesOfText(Unmixed(x)) && Dedup.NoRepeats(Mixed(x))
  {
    WordLine(x, "\r\n");
    WordLine(x, "\n");
    BlankLine("\n");
    BlankLine("\r\n");
    ClosedLinesAreText(Mixed(x));
    ClosedLinesAreText(Unmixed(x));
    assert (x + "\r\n")[|x|] == '\r' && (x + "\n")[|x|] == '\n';
  }

  lemma {:induction false} CollapseOfWord(x: string, rest: string)
    requires NoBreaks(x) && All(IsDull, x)
    ensures CollapseBlanks.Collapse(x + rest) == x + CollapseBlanks.Collapse(rest)
  {
    if x == "" {
      assert x + rest == rest;
    } else {
      var t := x + rest;
      assert t[0] == x[0] && IsDull(x[0]) && !IsBreak(x[0]);
      SpanUnique(IsBlank, t, 0);
      BlankMerging.CollapseHeadChar(t);
      assert t[1..] == x[1..] + rest;
      CollapseOfWord(x[1..], rest);
    }
  }

  function Tail(e: string, r: string): string {
    e + (e + (e + (e + (e + (e + r)))))
  }

  /** The text after the second word. */
  const TAIL: string := Tail("\n", "\r\n")

  lemma TailGroups(e: string, r: string)
    requires e == "\n" && r == "\r\n"
    ensures CollapseBlanks.Groups(Tail(e, r)) == 7 && CollapseBlanks.GroupsLen(Tail(e, r)) == 8
  {
    GroupCounts(r, "");
    assert r + "" == r;
    GroupCounts(e, r);
    GroupCounts(e, e + r);
    GroupCounts(e, e + (e + r));
    GroupCounts(e, e + (e + (e + r)));
    GroupCounts(e, e + (e + (e + (e + r))));
    GroupCounts(e, e + (e + (e + (e + (e + r)))));
  }

  lemma TailHasReturn(e: string, r: string)
    requires e == "\n" && r == "\r\n"
    ensures |Tail(e, r)| == 8 && CollapseBlanks.HasReturn(Tail(e, r))
  {
    assert Tail(e, r)[6] == r[0] && Tail(e, r)[7] == r[1];
  }

  lemma TailRun()
    ensures CollapseBlanks.Collapse(TAIL) == "\r\n\r\n\r\n"
  {
    TailGroups("\n", "\r\n");
    TailHasReturn("\n", "\r\n");
    CollapseOfRun(Tail("\n", "\r\n"));
  }

  lemma CollapseOfRun(t: string)
    requires CollapseBlanks.Groups(t) >= 4 && CollapseBlanks.GroupsLen(t) == |t| && CollapseBlanks.HasReturn(t)
    ensures CollapseBlanks.Collapse(t) == "\r\n\r\n\r\n"
  {
    assert t[..|t|] == t && t[|t|..] == "";
    BlankMerging.CollapseHeadRun(t);
  }

  lemma GroupCounts(e: string, y: string)
    requires e == "\n" || e == "\r\n"
    ensures CollapseBlanks.Groups(e + y) == 1 + CollapseBlanks.Groups(y)
    ensures CollapseBlanks.GroupsLen(e + y) == |e| + CollapseBlanks.GroupsLen(y)
  {
    BlankMerging.EolGroup(e, y);
    assert (e + y)[|e|..] == y;
  }

  lemma CollapseOfMixed(x: string)
    requires IsWord(x)
    ensures CollapseBlanks.Collapse(x + ("\r\n" + (x + TAIL))) == x + ("\r\n" + (x + "\r\n\r\n\r\n"))
  {
    var t := "\r\n" + (x + TAIL);
    CollapseOfWord(x, t);
    CollapseOfWord(x, TAIL);
    TailRun();
    var u := x + TAIL;
    assert u[0] == x[0] && IsDull(x[0]) && !IsBreak(x[0]);
    SpanUnique(IsBlank, u, 0);
    BlankMerging.EolGroup("\r\n", u);
    CollapseBlanks.CopyGroup(t);
    assert t[..2] == "\r\n" && t[2..] == u;
  }

  lemma JoinOfMixed(x: string)
    ensures Join(Mixed(x)) == x + ("\r\n" + (x + TAIL))
    ensures Join(Unmixed(x)) == x + ("\r\n" + (x + "\r\n\r\n\r\n"))
  {
    var e, r := "\n", "\r\n";
    var blanks := [e] + ([e] + ([e] + ([e] + ([e] + ([r] + [])))));
    JoinOfBlanks(e, r);
    JoinOfCons(x + e, blanks);
    JoinOfCons(x + r, [x + e] + blanks);
    assert Mixed(x) == [x + r] + ([x + e] + blanks);
    Regroup(x, e, Join(blanks));
    Regroup(x, r, x + (e + Join(blanks)));
    var two := [r] + ([r] + []);
    JoinOfCons(r, []);
    JoinOfCons(r, [r] + []);
    JoinOfCons(x + r, two);
    JoinOfCons(x + r, [x + r] + two);
    assert Unmixed(x) == [x + r] + ([x + r] + two);
    assert r + (r + (r + "")) == "\r\n\r\n\r\n";
    Regroup(x, r, Join(two));
    Regroup(x, r, x + (r + Join(two)));
  }

  lemma JoinOfBlanks(e: string, r: string)
    ensures Join([e] + ([e] + ([e] + ([e] + ([e] + ([r] + [])))))) == e + (e + (e + (e + (e + r))))
  {
    JoinOfCons(r, []);
    assert r + "" == r;
    JoinOfCons(e, [r] + []);
    JoinOfCons(e, [e] + ([r] + []));
    JoinOfCons(e, [e] + ([e] + ([r] + [])));
    JoinOfCons(e, [e] + ([e] + ([e] + ([r] + []))));
    JoinOfCons(e, [e] + ([e] + ([e] + ([e] + ([r] + [])))));
  }

  lemma DullMixed(x: string)
    requires IsWord(x)
    ensures All(IsDull, Join(Mixed(x)))
  {
    AllInJoin(IsDull, Mixed(x));
  }

  lemma FirstRunOfMixed(x: string)
    requires IsWord(x)
    ensures Compressed([TRAILING, RULES, DUMPS, REPEATS, BLANKS], Join(Mixed(x))) == Join(Unmixed(x))
  {
    var t := Join(Mixed(x));
    DullMixed(x);
    DullSteps(t);
    MixedLines(x);
    SplitOfJoin(Mixed(x));
    Dedup.DedupFixpoint(t);
    JoinOfMixed(x);
    CollapseOfMixed(x);
    CompressedIsRunAll([TRAILING, RULES, DUMPS, REPEATS, BLANKS], t);
    RunAllOfFive(TRAILING, RULES, DUMPS, REPEATS, BLANKS, t);
  }

  lemma BlankStays(e: string, rest: seq<string>)
    requires Dedup.Key(e) == None
    ensures Dedup.DedupLines([e] + rest) == [e] + Dedup.DedupLines(rest)
  {
    FirstKept(Dedup.DEDUP, [e] + rest);
    assert ([e] + rest)[1..] == rest;
  }

  lemma SecondDedup(x: string)
    requires IsWord(x)
    ensures |Dedup.DedupText(Join(Unmixed(x)))| < |Join(Unmixed(x))|
  {
    var l, rest := x + "\r\n", ["\r\n", "\r\n"];
    var marker := Dedup.Marker(l, l, 2);
    MixedLines(x);
    SplitOfJoin(Unmixed(x));
    WordLine(x, "\r\n");
    BlankLine("\r\n");
    assert Unmixed(x) == Copies(l, 2) + rest;
    FoldRunOfTwo(l, rest);
    BlankStays("\r\n", []);
    BlankStays("\r\n", ["\r\n"]);
    assert ["\r\n"] + [] == ["\r\n"] && ["\r\n"] + ["\r\n"] == rest;
    MarkerLength(l, x);
    JoinAppend([l, l], rest);
    JoinAppend([l, marker], rest);
    JoinOfPair(l, l);
    JoinOfPair(l, marker);
    assert Unmixed(x) == [l, l] + rest;
  }

  lemma FoldRunOfTwo(l: string, rest: seq<string>)
    requires Dedup.Key(l) == Some(l) && rest != [] && rest[0] != l
    ensures Dedup.DedupLines(Copies(l, 2) + rest) == [l, Dedup.Marker(l, l, 2)] + Dedup.DedupLines(rest)
  {
    RunIsFolded(Dedup.DEDUP, Copies(l, 2), l, rest);
  }

  lemma MarkerLength(l: string, x: string)
    requires IsWord(x) && l == x + "\r\n"
    ensures |Dedup.Marker(l, l, 2)| < |l|
  {
    WordLine(x, "\r\n");
    assert l[|x|..] == "\r\n";
    assert |Dec(1)| == 1 && |Dedup.BEFORE| == 3 && |Dedup.AFTER| == 26;
  }

  lemma JoinOfPair(a: string, b: string)
    ensures |Join([a, b])| == |a| + |b|
  {
    assert [a, b] == [a] + ([b] + []);
    JoinOfCons(a, [b] + []);
    JoinOfCons(b, []);
  }

  /** Main result: texts that mix "\n" and "\r\n" are no better. On every word of forty characters or more,
      written twice with the two line ends before blank lines, the five passes need a second run: the first
      gives both words the same line end, the second folds them. */
  lemma MixedLineEndsAreNotIdempotent(x: string)
    requires IsWord(x)
    ensures var ps, t := [TRAILING, RULES, DUMPS, REPEATS, BLANKS], Join(Mixed(x));
            Compressed(ps, Compressed(ps, t)) != Compressed(ps, t)
  {
    var ps := [TRAILING, RULES, DUMPS, REPEATS, BLANKS];
    FirstRunOfMixed(x);
    SecondDedup(x);
    FixpointIff(ps, Join(Unmixed(x)));
    assert ps[3] == REPEATS;
  }
}
