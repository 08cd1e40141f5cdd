/**
  The base pipeline on texts whose every line feed ends a "\r\n": each pass does what it does on the text
  with "\n" instead, and the guard weighs a line end as two characters.
 */
module PipelineCrlf {
  import opened Driver
  import opened PipelineIdempotence
  import opened RunFold
  import opened Substitution
  import opened Text
  import opened Wrappers
  import BlankMerging
  import CollapseBlanks
  import Dedup
  import HexDump
  import RuleRuns
  import TrailingWs

  // ---- writing "\r\n" for "\n" -------------------------------------------------------------

  function Crlf(t: string): string {
    if t == "" then "" else (if t[0] == '\n' then "\r\n" else [t[0]]) + Crlf(t[1..])
  }

  /** A line feed counts as two characters. */
  const WIDE: Weight := (c: char) => if c == '\n' then 2 else 1

  lemma {:induction false} CrlfLength(t: string)
    ensures |Crlf(t)| == Weigh(WIDE, t)
  {
    if t != "" {
      CrlfLength(t[1..]);
    }
  }

  lemma {:induction false} CrlfAppend(a: string, b: string)
    ensures Crlf(a + b) == Crlf(a) + Crlf(b)
  {
    if a == "" {
      assert a + b == b;
    } else {
      assert (a + b)[1..] == a[1..] + b;
      CrlfAppend(a[1..], b);
      Regroup(if a[0] == '\n' then "\r\n" else [a[0]], Crlf(a[1..]), Crlf(b));
    }
  }

  lemma {:induction false} CrlfOfFeedless(x: string)
    requires '\n' !in x
    ensures Crlf(x) == x
  {
    if x != "" {
      CrlfOfFeedless(x[1..]);
    }
  }

  lemma CrlfOfPlain(x: string)
    requires NoBreaks(x)
    ensures Crlf(x) == x
  {
    CrlfOfFeedless(x);
  }

  lemma CrlfHead(x: string)
    requires x != ""
    ensures Crlf(x) != "" && Crlf(x)[0] == if x[0] == '\n' then '\r' else x[0]
  {
  }

  lemma CrlfSplit(x: string, k: nat)
    requires k <= |x| && NoBreaks(x[..k])
    ensures Crlf(x) == x[..k] + Crlf(x[k..])
  {
    Rejoin(x, k);
    CrlfAppend(x[..k], x[k..]);
    CrlfOfPlain(x[..k]);
  }

  lemma {:induction false} CrlfIsInjective(a: string, b: string)
    requires Crlf(a) == Crlf(b)
    ensures a == b
  {
    if a != "" && b != "" {
      var x, y := Crlf(a), Crlf(b);
      var k := if a[0] == '\n' then 2 else 1;
      SecondOfCrlf(a);
      SecondOfCrlf(b);
      assert x[0] == y[0] && (|x| > 1 ==> x[1] == y[1]);
      assert a[0] == b[0];
      assert x[k..] == Crlf(a[1..]) && y[k..] == Crlf(b[1..]);
      CrlfIsInjective(a[1..], b[1..]);
    }
  }

  lemma SecondOfCrlf(a: string)
    requires a != ""
    ensures |Crlf(a)| > 1 && Crlf(a)[1] == '\n' <==> a[0] == '\n'
  {
    if a[0] != '\n' && |a| > 1 {
      CrlfHead(a[1..]);
      assert Crlf(a)[1] == Crlf(a[1..])[0];
    }
  }

  /** Every line feed is the second half of a "\r\n". */
  predicate FeedsAfterReturns(t: string) {
    forall i | 0 <= i < |t| && t[i] == '\n' :: i > 0 && t[i - 1] == '\r'
  }

  predicate BlanksThenCrlf(s: string) {
    var k := Span(IsBlank, s); k + 1 < |s| && s[k] == '\r' && s[k + 1] == '\n'
  }

  /** No return comes before a "\r\n", blanks aside. */
  predicate LoneBeforeCrlf(t: string) {
    t == "" || ((t[0] == '\r' ==> !BlanksThenCrlf(t[1..])) && LoneBeforeCrlf(t[1..]))
  }

  lemma CrlfTail(t: string, k: nat)
    requires FeedsAfterReturns(t) && LoneBeforeCrlf(t)
    requires 0 < k <= |t| && k <= 2 && (k < |t| ==> t[k] != '\n')
    ensures FeedsAfterReturns(t[k..]) && LoneBeforeCrlf(t[k..])
  {
    var u := t[k..];
    assert k == 2 ==> t[1..][1..] == u;
    forall i | 0 <= i < |u| && u[i] == '\n' ensures i > 0 && u[i - 1] == '\r' {
      assert t[k + i] == '\n' && t[k + i - 1] == '\r';
      assert i > 0;
    }
  }

  lemma CrlfOfCons(c: char, t: string)
    ensures Crlf([c] + t) == (if c == '\n' then "\r\n" else [c]) + Crlf(t)
  {
    assert ([c] + t)[1..] == t;
  }

  lemma LoneCons(c: char, y: string)
    requires LoneReturns(y) && (c == '\r' ==> !BlanksThenCrlf(Crlf(y)))
    ensures LoneReturns([c] + y)
  {
    assert ([c] + y)[1..] == y;
    SpanOfCrlf(y);
  }

  /** These texts are just the ones written that way. */
  lemma {:induction false} CrlfOrigin(t: string) returns (x: string)
    requires FeedsAfterReturns(t) && LoneBeforeCrlf(t)
    ensures LoneReturns(x) && Crlf(x) == t
    decreases |t|
  {
    if t == "" {
      x := "";
    } else {
      var k := if |t| > 1 && t[0] == '\r' && t[1] == '\n' then 2 else 1;
      assert k < |t| ==> t[k] != '\n';
      CrlfTail(t, k);
      x := CrlfOrigin(t[k..]);
      var c := if k == 2 then '\n' else t[0];
      assert k == 1 ==> c != '\n';
      assert t == (if k == 2 then "\r\n" else [t[0]]) + t[k..];
      LoneCons(c, x);
      CrlfOfCons(c, x);
      x := [c] + x;
    }
  }

  // ---- substitutions that stay within a line ----------------------------------------------

  /** The pattern matches the same on both texts, never starts at a break, and neither matches nor
      writes one. */
  ghost predicate CrlfStable(m: Pattern, r: string -> string) {
    && (forall s | LoneReturns(s) ::
          (Matches(m, Crlf(s)) <==> Matches(m, s))
          && (Matches(m, s) ==> m(Crlf(s)) == m(s) && NoBreaks(s[..m(s)]) && NoBreaks(r(s[..m(s)]))))
    && forall s | s != "" && IsBreak(s[0]) :: !Matches(m, s)
  }

  lemma NewlineIsCopied(m: Pattern, r: string -> string, y: string)
    requires CrlfStable(m, r)
    ensures Sub(m, r, "\r\n" + y) == "\r\n" + Sub(m, r, y)
  {
    var t := "\r\n" + y;
    var u := t[1..];
    assert IsBreak(t[0]) && IsBreak(u[0]) && u[1..] == y;
    assert Sub(m, r, t) == ['\r'] + Sub(m, r, u);
    assert Sub(m, r, u) == ['\n'] + Sub(m, r, y);
  }

  lemma {:induction false} SubOfCrlf(m: Pattern, r: string -> string, x: string)
    requires CrlfStable(m, r) && LoneReturns(x)
    ensures Sub(m, r, Crlf(x)) == Crlf(Sub(m, r, x))
    decreases |x|
  {
    if x != "" {
      var k := if Matches(m, x) then m(x) else 1;
      var rest := x[k..];
      LoneReturnsTail(x, k);
      SubOfCrlf(m, r, rest);
      if Matches(m, x) {
        SubAtMatch(m, r, x);
      } else {
        CrlfAppend([x[0]], Sub(m, r, rest));
        if x[0] == '\n' {
          NewlineIsCopied(m, r, Crlf(rest));
          assert Crlf("\n") == "\r\n" + Crlf("");
        } else {
          assert Crlf(x)[1..] == Crlf(rest);
          assert Crlf([x[0]]) == [x[0]] + Crlf("");
        }
      }
    }
  }

  lemma SubAtMatch(m: Pattern, r: string -> string, x: string)
    requires CrlfStable(m, r) && LoneReturns(x) && Matches(m, x)
    requires Sub(m, r, Crlf(x[m(x)..])) == Crlf(Sub(m, r, x[m(x)..]))
    ensures Sub(m, r, Crlf(x)) == Crlf(Sub(m, r, x))
  {
    var k, y := m(x), Crlf(x);
    CrlfSplit(x, k);
    assert y[..k] == x[..k] && y[k..] == Crlf(x[k..]);
    CrlfOfPlain(r(x[..k]));
    CrlfAppend(r(x[..k]), Sub(m, r, x[k..]));
  }

  lemma BlanksAreNoBreaks(x: string, k: nat)
    requires k <= Span(IsBlank, x)
    ensures NoBreaks(x[..k])
  {
    forall i | 0 <= i < k ensures !IsBreak(x[i]) {
      assert IsBlank(x[..Span(IsBlank, x)][i]);
    }
  }

  lemma SpanOfCrlf(x: string)
    ensures var k := Span(IsBlank, x);
            && Span(IsBlank, Crlf(x)) == k && Crlf(x) == x[..k] + Crlf(x[k..])
            && (k < |x| ==> k < |Crlf(x)| && Crlf(x)[k] == if x[k] == '\n' then '\r' else x[k])
            && (k == |x| ==> k == |Crlf(x)|)
            && (k < |x| ==> (k + 1 < |Crlf(x)| && Crlf(x)[k + 1] == '\n' <==> x[k] == '\n'))
  {
    var k, y := Span(IsBlank, x), Crlf(x);
    BlanksAreNoBreaks(x, k);
    CrlfSplit(x, k);
    assert y[..k] == x[..k];
    if k < |x| {
      assert x[k..][0] == x[k];
      assert y[k..] == Crlf(x[k..]);
      SecondOfCrlf(x[k..]);
    }
    SpanUnique(IsBlank, y, k);
  }

  lemma ReturnAfterBlanks(s: string)
    requires LoneReturns(s)
    ensures var k := Span(IsBlank, s); k + 1 < |s| && s[k] == '\r' ==> s[k + 1] != '\n'
  {
    var k := Span(IsBlank, s);
    if k + 1 < |s| && s[k] == '\r' {
      LoneReturnsAt(s, k);
      assert s[k + 1..][0] == s[k + 1];
    }
  }

  lemma TrailingIsStable()
    ensures CrlfStable(TrailingWs.TrailingLen, TrailingWs.Erase)
  {
    forall s | LoneReturns(s)
      ensures Matches(TrailingWs.TrailingLen, Crlf(s)) <==> Matches(TrailingWs.TrailingLen, s)
      ensures Matches(TrailingWs.TrailingLen, s) ==>
        TrailingWs.TrailingLen(Crlf(s)) == TrailingWs.TrailingLen(s) && NoBreaks(s[..TrailingWs.TrailingLen(s)])
    {
      SpanOfCrlf(s);
      ReturnAfterBlanks(s);
      BlanksAreNoBreaks(s, Span(IsBlank, s));
    }
  }

  lemma {:induction false} RunLenOfCrlf(s: string)
    requires s != "" && !IsBreak(s[0])
    ensures RuleRuns.RunLen(Crlf(s)) == RuleRuns.RunLen(s) && Crlf(s)[0] == s[0]
    ensures NoBreaks(s[..RuleRuns.RunLen(s)])
  {
    var y := Crlf(s);
    assert y[1..] == Crlf(s[1..]);
    if |s| > 1 {
      assert y[1] == Crlf(s[1..])[0];
      if s[1] == s[0] {
        RunLenOfCrlf(s[1..]);
        assert s[..RuleRuns.RunLen(s)] == [s[0]] + s[1..][..RuleRuns.RunLen(s[1..])];
      }
    }
  }

  lemma RuleIsStable()
    ensures CrlfStable(RuleRuns.RuleLen, RuleRuns.Eight)
  {
    forall s | LoneReturns(s)
      ensures Matches(RuleRuns.RuleLen, Crlf(s)) <==> Matches(RuleRuns.RuleLen, s)
      ensures Matches(RuleRuns.RuleLen, s) ==>
        RuleRuns.RuleLen(Crlf(s)) == RuleRuns.RuleLen(s) && NoBreaks(s[..RuleRuns.RuleLen(s)])
        && NoBreaks(RuleRuns.Eight(s[..RuleRuns.RuleLen(s)]))
    {
      if s != "" {
        if IsBreak(s[0]) {
          CrlfHead(s);
        } else {
          RunLenOfCrlf(s);
          assert s[..1][0] == s[0];
        }
      }
    }
  }

  lemma PairOfCrlf(s: string)
    ensures HexDump.IsPair(Crlf(s)) <==> HexDump.IsPair(s)
    ensures HexDump.IsPair(s) ==> Crlf(s)[2..] == Crlf(s[2..])
  {
    if |s| >= 1 && s[0] != '\n' {
      assert Crlf(s)[1..] == Crlf(s[1..]);
      if |s| >= 2 {
        assert Crlf(s)[1] == Crlf(s[1..])[0];
        if s[1] != '\n' {
          assert Crlf(s[1..])[1..] == Crlf(s[2..]);
        }
      }
    }
  }

  lemma {:induction false} MorePairsOfCrlf(s: string)
    ensures HexDump.MorePairs(Crlf(s)) == HexDump.MorePairs(s)
    decreases |s|
  {
    var y := Crlf(s);
    if s != "" && s[0] == ' ' {
      assert y[1..] == Crlf(s[1..]);
      PairOfCrlf(s[1..]);
      if HexDump.IsPair(s[1..]) {
        assert y[3..] == y[1..][2..] && s[3..] == s[1..][2..];
        MorePairsOfCrlf(s[3..]);
      }
    }
  }

  lemma DumpHasNoBreaks(s: string)
    requires Matches(HexDump.DumpLen, s)
    ensures NoBreaks(s[..HexDump.DumpLen(s)]) && NoBreaks(HexDump.Marker(s[..HexDump.DumpLen(s)]))
  {
    HexDump.DumpIsHex(s);
    forall i | 0 <= i < HexDump.DumpLen(s) ensures !IsBreak(s[i]) {
      assert HexDump.IsHexOrSpace(s[i]);
    }
    HexLiteralsArePlain();
    NoBreaksInNumbered(HexDump.BEFORE, (|s[..HexDump.DumpLen(s)]| + 1) / 3, HexDump.AFTER);
  }

  lemma DumpIsStable()
    ensures CrlfStable(HexDump.DumpLen, HexDump.Marker)
  {
    forall s | LoneReturns(s)
      ensures Matches(HexDump.DumpLen, Crlf(s)) <==> Matches(HexDump.DumpLen, s)
      ensures Matches(HexDump.DumpLen, s) ==>
        HexDump.DumpLen(Crlf(s)) == HexDump.DumpLen(s) && NoBreaks(s[..HexDump.DumpLen(s)])
        && NoBreaks(HexDump.Marker(s[..HexDump.DumpLen(s)]))
    {
      PairOfCrlf(s);
      if HexDump.IsPair(s) {
        MorePairsOfCrlf(s[2..]);
      }
      if Matches(HexDump.DumpLen, s) {
        DumpHasNoBreaks(s);
      }
    }
  }

  /** The first three passes on such a text. */
  lemma First3OfCrlf(x: string)
    requires LoneReturns(x)
    ensures First3(Crlf(x)) == Crlf(First3(x))
    ensures TrailingWs.Strip(Crlf(x)) == Crlf(TrailingWs.Strip(x))
    ensures RuleRuns.Shorten(Crlf(TrailingWs.Strip(x))) == Crlf(RuleRuns.Shorten(TrailingWs.Strip(x)))
  {
    var u := TrailingWs.Strip(x);
    StripSettles(x);
    ShortenKeeps(u);
    StrippedIsLone(u);
    StrippedIsLone(RuleRuns.Shorten(u));
    TrailingIsStable();
    RuleIsStable();
    DumpIsStable();
    SubOfCrlf(TrailingWs.TrailingLen, TrailingWs.Erase, x);
    SubOfCrlf(RuleRuns.RuleLen, RuleRuns.Eight, u);
    SubOfCrlf(HexDump.DumpLen, HexDump.Marker, RuleRuns.Shorten(u));
  }

  // ---- dedup ------------------------------------------------------------------------------

  function CrlfLines(ls: seq<string>): (r: seq<string>)
    ensures |r| == |ls| && forall i | 0 <= i < |ls| :: r[i] == Crlf(ls[i])
  {
    if ls == [] then [] else [Crlf(ls[0])] + CrlfLines(ls[1..])
  }

  lemma {:induction false} JoinOfCrlf(ls: seq<string>)
    ensures Join(CrlfLines(ls)) == Crlf(Join(ls))
  {
    if ls != [] {
      JoinOfCrlf(ls[1..]);
      CrlfAppend(ls[0], Join(ls[1..]));
      assert CrlfLines(ls)[1..] == CrlfLines(ls[1..]);
    }
  }

  predicate GoodLines(ls: seq<string>) {
    LinesOfText(ls) && forall l | l in ls :: NoCrLf(l)
  }

  lemma CrlfOfNewline(c: string)
    requires '\n' !in c
    ensures Crlf(c + "\n") == c + "\r\n"
  {
    CrlfAppend(c, "\n");
    CrlfOfFeedless(c);
    assert Crlf("\n") == "\r\n" + Crlf("");
  }

  lemma ClosedCrlfLine(c: string)
    requires NoBreaks(c)
    ensures var m := c + "\r\n"; IsLine(m) && Content(m) == c && Content(c + "\n") == c
  {
    assert c != "" ==> !IsBreak(c[|c| - 1]);
    LineOfShape(c, "\r\n");
    ContentOfAppend(c, "\r\n");
    ContentOfAppend(c, "\n");
  }

  /** A line keeps its content and its last character. */
  lemma CrlfLine(l: string)
    requires IsLine(l) && NoCrLf(l)
    ensures IsLine(Crlf(l)) && Content(Crlf(l)) == Content(l) && Crlf(l)[0] != '\n'
    ensures l[|l| - 1] == '\n' ==> Crlf(l) == Content(l) + "\r\n" && l == Content(l) + "\n"
    ensures l[|l| - 1] != '\n' ==> Crlf(l) == l
    ensures Crlf(l)[|Crlf(l)| - 1] == l[|l| - 1]
  {
    CrlfHead(l);
    if l[|l| - 1] == '\n' {
      var b := FeedLine(l);
      CrlfOfNewline(b);
      ClosedCrlfLine(b);
    } else {
      OneFeed(l);
      CrlfOfFeedless(l);
    }
  }

  lemma FeedLine(l: string) returns (b: string)
    requires IsLine(l) && NoCrLf(l) && l[|l| - 1] == '\n'
    ensures NoBreaks(b) && l == b + "\n"
  {
    var e;
    b, e := LineShape(l);
    assert b != "" ==> !IsBreak(b[|b| - 1]);
    assert e != "" && e[|e| - 1] == '\n';
    NoCrLfInAppend(b, e);
    assert !NoCrLf("\r\n") by {
      assert "\r\n"[0] == '\r' && "\r\n"[1] == '\n';
    }
  }

  lemma LinesOfCrlf(ls: seq<string>)
    requires GoodLines(ls)
    ensures LinesOfText(CrlfLines(ls)) && SplitLines(Crlf(Join(ls))) == CrlfLines(ls)
  {
    var ms := CrlfLines(ls);
    forall i | 0 <= i < |ms| ensures IsLine(ms[i]) {
      CrlfLine(ls[i]);
    }
    forall i | 0 < i < |ms| ensures Follows(ms[i - 1], ms[i]) {
      assert Follows(ls[i - 1], ls[i]);
      CrlfLine(ls[i - 1]);
      CrlfLine(ls[i]);
    }
    JoinOfCrlf(ls);
    SplitOfJoin(ms);
  }

  /** The line ends in "\n" or "\r". */
  predicate PlainEnd(l: string) {
    l != "" && (l[|l| - 1] == '\n' || l[|l| - 1] == '\r')
  }

  /** A line that repeats the one before it ends in "\n" or "\r". (The markers of other lines would be
      closed with "\n" even here.) */
  predicate RepeatsArePlain(ls: seq<string>) {
    forall i | 0 < i < |ls| && ls[i] == ls[i - 1] :: PlainEnd(ls[i])
  }

  lemma RepeatsTail(ls: seq<string>, n: nat)
    requires RepeatsArePlain(ls) && n <= |ls|
    ensures RepeatsArePlain(ls[n..])
  {
    forall i | 0 < i < |ls| - n && ls[n..][i] == ls[n..][i - 1] ensures PlainEnd(ls[n..][i]) {
      assert ls[n + i] == ls[n + i - 1];
    }
  }

  lemma {:induction false} FollowersOfCrlf(k: string, s: seq<string>)
    ensures Followers(Dedup.DEDUP, Crlf(k), CrlfLines(s)) == Followers(Dedup.DEDUP, k, s)
  {
    if s != [] {
      FollowersOfCrlf(k, s[1..]);
      assert CrlfLines(s)[1..] == CrlfLines(s[1..]);
      if Crlf(s[0]) == Crlf(k) {
        CrlfIsInjective(s[0], k);
      }
    }
  }

  lemma EolOfFeedLine(a: string)
    requires IsLine(a) && NoCrLf(a) && a[|a| - 1] == '\n'
    ensures EolFor(a) == "\n" && EolFor(Crlf(a)) == "\r\n"
  {
    var c := Content(a);
    CrlfLine(a);
    assert a[|c|..] == "\n" && Crlf(a)[|c|..] == "\r\n";
  }

  lemma EolOfReturnLine(a: string)
    requires IsLine(a) && NoCrLf(a) && a[|a| - 1] == '\r'
    ensures EolFor(a) == "\r" && EolFor(Crlf(a)) == "\r"
  {
    CrlfLine(a);
    EolOfLine(a);
    var c := |Content(a)|;
    assert c < |a| && a[c..][|a| - c - 1] == '\r';
  }

  lemma MarkerOfCrlf(a: string, n: nat)
    requires IsLine(a) && PlainEnd(a) && NoCrLf(a)
    ensures Dedup.Marker(Crlf(a), Crlf(a), n) == Crlf(Dedup.Marker(a, a, n))
  {
    var count := if n == 0 then 0 else n - 1;
    Dedup.MarkerReadsBack(count);
    if a[|a| - 1] == '\n' {
      EolOfFeedLine(a);
      CrlfOfNewline(Dedup.MarkerText(count));
    } else {
      EolOfReturnLine(a);
      CrlfOfFeedless(Dedup.MarkerText(count) + "\r");
    }
  }

  lemma KeyOfCrlf(l: string)
    requires IsLine(l) && NoCrLf(l)
    ensures Dedup.Key(Crlf(l)) == if Dedup.Key(l).Some? then Some(Crlf(l)) else None
  {
    CrlfLine(l);
  }

  lemma HeadOfCrlf(ls: seq<string>)
    requires GoodLines(ls) && RepeatsArePlain(ls) && ls != []
    ensures FoldsAt(Dedup.DEDUP, CrlfLines(ls)) <==> FoldsAt(Dedup.DEDUP, ls)
    ensures FoldsAt(Dedup.DEDUP, ls) ==> RunAt(Dedup.DEDUP, CrlfLines(ls)) == RunAt(Dedup.DEDUP, ls)
                                         && PlainEnd(ls[0])
  {
    assert IsLine(ls[0]) && NoCrLf(ls[0]);
    KeyOfCrlf(ls[0]);
    FollowersOfCrlf(ls[0], ls[1..]);
    assert CrlfLines(ls)[1..] == CrlfLines(ls[1..]);
    if FoldsAt(Dedup.DEDUP, ls) {
      Dedup.RunIsCopies(ls);
      assert ls[1] == ls[0];
    }
  }

  lemma ShownOfCrlf(ls: seq<string>)
    requires GoodLines(ls) && RepeatsArePlain(ls) && ls != []
    ensures HeadLength(Dedup.DEDUP, CrlfLines(ls)) == HeadLength(Dedup.DEDUP, ls)
    ensures RenderOne(Dedup.DEDUP, HeadPiece(Dedup.DEDUP, CrlfLines(ls)))
         == CrlfLines(RenderOne(Dedup.DEDUP, HeadPiece(Dedup.DEDUP, ls)))
  {
    HeadOfCrlf(ls);
    if FoldsAt(Dedup.DEDUP, ls) {
      var n := RunAt(Dedup.DEDUP, ls);
      assert IsLine(ls[0]) && NoCrLf(ls[0]);
      KeyOfCrlf(ls[0]);
      MarkerOfCrlf(ls[0], n);
      var shown := [ls[0], Dedup.Marker(ls[0], ls[0], n)];
      assert RenderOne(Dedup.DEDUP, HeadPiece(Dedup.DEDUP, ls)) == shown;
      assert shown[1..] == [shown[1]] && [shown[1]][1..] == [];
      assert CrlfLines(shown) == [Crlf(shown[0]), Crlf(shown[1])];
    }
  }

  lemma {:induction false} CrlfLinesOfAppend(a: seq<string>, b: seq<string>)
    ensures CrlfLines(a + b) == CrlfLines(a) + CrlfLines(b)
  {
  }

  lemma {:induction false} DedupOfCrlf(ls: seq<string>)
    requires GoodLines(ls) && RepeatsArePlain(ls)
    ensures Dedup.DedupLines(CrlfLines(ls)) == CrlfLines(Dedup.DedupLines(ls))
    decreases |ls|
  {
    if ls != [] {
      var n, ms := HeadLength(Dedup.DEDUP, ls), CrlfLines(ls);
      ShownOfCrlf(ls);
      LinesTail(ls, n);
      RepeatsTail(ls, n);
      DedupOfCrlf(ls[n..]);
      assert ms[n..] == CrlfLines(ls[n..]);
      FoldByPiece(Dedup.DEDUP, ls);
      FoldByPiece(Dedup.DEDUP, ms);
      CrlfLinesOfAppend(RenderOne(Dedup.DEDUP, HeadPiece(Dedup.DEDUP, ls)), Dedup.DedupLines(ls[n..]));
    }
  }

  lemma DedupTextOfCrlf(x: string)
    requires NoCrLf(x) && RepeatsArePlain(SplitLines(x))
    ensures Dedup.DedupText(Crlf(x)) == Crlf(Dedup.DedupText(x))
  {
    var ls := SplitLines(x);
    SplitGivesLines(x);
    JoinOfSplit(x);
    NoCrLfByLine(ls);
    LinesOfCrlf(ls);
    DedupOfCrlf(ls);
    JoinOfCrlf(Dedup.DedupLines(ls));
  }

  lemma StepRepeats(x: string)
    requires NoCrLf(x) && RepeatsArePlain(SplitLines(x))
    ensures Step(REPEATS, Crlf(x)) == Crlf(GuardedDedup(WIDE, x))
  {
    DedupTextOfCrlf(x);
    CrlfLength(x);
    CrlfLength(Dedup.DedupText(x));
  }

  // ---- blank lines ------------------------------------------------------------------------

  lemma NoCrLfTail(x: string, k: nat)
    requires NoCrLf(x) && k <= |x|
    ensures NoCrLf(x[k..])
  {
    assert forall i | 0 <= i < |x| - k :: x[k..][i] == x[k + i];
  }

  lemma GroupOfCrlf(x: string)
    requires NoCrLf(x)
    ensures var n := CollapseBlanks.GroupLen(x);
            && CollapseBlanks.GroupLen(Crlf(x)) == (if n == 0 then 0 else n + 1)
            && (n > 0 ==> Crlf(x)[n + 1..] == Crlf(x[n..]) && Crlf(x[..n]) == Crlf(x)[..n + 1])
  {
    var k, y := Span(IsBlank, x), Crlf(x);
    SpanOfCrlf(x);
    if k < |x| && x[k] == '\n' {
      BlanksAreNoBreaks(x, k);
      FeedAfterPlain(x, k);
    }
  }

  lemma FeedAfterPlain(x: string, k: nat)
    requires k < |x| && x[k] == '\n' && NoBreaks(x[..k])
    ensures k + 2 <= |Crlf(x)| && Crlf(x)[k + 2..] == Crlf(x[k + 1..]) && Crlf(x[..k + 1]) == Crlf(x)[..k + 2]
  {
    var n := k + 1;
    Rejoin(x, n);
    CrlfAppend(x[..n], x[n..]);
    assert x[..n] == x[..k] + "\n";
    CrlfOfNewline(x[..k]);
  }

  lemma {:induction false} GroupsOfCrlf(x: string)
    requires NoCrLf(x)
    ensures var n := CollapseBlanks.GroupsLen(x);
            && CollapseBlanks.Groups(Crlf(x)) == CollapseBlanks.Groups(x)
            && CollapseBlanks.GroupsLen(Crlf(x)) == |Crlf(x[..n])|
            && Crlf(x) == Crlf(x[..n]) + Crlf(x[n..])
    decreases |x|
  {
    var g, n := CollapseBlanks.GroupLen(x), CollapseBlanks.GroupsLen(x);
    Rejoin(x, n);
    CrlfAppend(x[..n], x[n..]);
    GroupOfCrlf(x);
    if g > 0 {
      NoCrLfTail(x, g);
      GroupsOfCrlf(x[g..]);
      CollapseBlanks.RunStep(x);
      CrlfAppend(x[..g], x[g..][..n - g]);
    } else {
      assert x[..0] == "";
    }
  }

  lemma ThreeOfCrlf(run: string)
    requires NoCrLf(run) && '\n' in run
    ensures CollapseBlanks.Three(Crlf(run)) == Crlf(CollapseBlanks.Three(run))
  {
    var i :| 0 <= i < |run| && run[i] == '\n';
    ReturnOfCrlf(run, i);
    var e := "\n";
    assert "\n\n\n" == e + (e + e);
    CrlfAppend(e, e + e);
    CrlfAppend(e, e);
    assert Crlf("\n") == "\r\n" + Crlf("");
  }

  lemma ReturnOfCrlf(run: string, i: nat)
    requires i < |run| && run[i] == '\n'
    ensures CollapseBlanks.HasReturn(Crlf(run))
  {
    var a, b := run[..i], run[i + 1..];
    RejoinAt(run, i);
    CrlfAppend(a, "\n" + b);
    CrlfAppend("\n", b);
    assert Crlf("\n") == "\r\n" + Crlf("");
    var y, n := Crlf(run), |Crlf(a)|;
    assert y == Crlf(a) + ("\r\n" + Crlf(b));
    assert y[n] == '\r' && y[n + 1] == '\n';
  }

  lemma GroupHasNewline(x: string)
    requires CollapseBlanks.Groups(x) > 0 && NoCrLf(x)
    ensures '\n' in x[..CollapseBlanks.GroupsLen(x)]
  {
    var n := CollapseBlanks.GroupLen(x);
    CollapseBlanks.RunStep(x);
    assert x[..CollapseBlanks.GroupsLen(x)][n - 1] == x[n - 1] == '\n';
  }

  lemma LineEndStays(y: string)
    requires CollapseBlanks.Groups(y) < 3
    ensures CollapseBlanks.Collapse("\r\n" + y) == "\r\n" + CollapseBlanks.Collapse(y)
  {
    var t := "\r\n" + y;
    BlankMerging.EolGroup("\r\n", y);
    CollapseBlanks.CopyGroup(t);
    assert t[..2] == "\r\n" && t[2..] == y;
  }

  lemma {:induction false} CollapseOfCrlf(x: string)
    requires NoCrLf(x)
    ensures CollapseBlanks.Collapse(Crlf(x)) == Crlf(CollapseBlanks.Collapse(x))
    decreases |x|
  {
    if x != "" {
      GroupsOfCrlf(x);
      if CollapseBlanks.Groups(x) >= 4 {
        var n := CollapseBlanks.GroupsLen(x);
        CollapseBlanks.GroupsLenIsPositive(x);
        NoCrLfTail(x, n);
        CollapseOfCrlf(x[n..]);
        CollapseRunOfCrlf(x);
      } else {
        NoCrLfTail(x, 1);
        CollapseOfCrlf(x[1..]);
        CollapseCharOfCrlf(x);
      }
    }
  }

  lemma CollapseRunOfCrlf(x: string)
    requires NoCrLf(x) && CollapseBlanks.Groups(x) >= 4
    requires var rest := x[CollapseBlanks.GroupsLen(x)..];
             CollapseBlanks.Collapse(Crlf(rest)) == Crlf(CollapseBlanks.Collapse(rest))
    ensures CollapseBlanks.Collapse(Crlf(x)) == Crlf(CollapseBlanks.Collapse(x))
  {
    var y, n := Crlf(x), CollapseBlanks.GroupsLen(x);
    var run, rest := x[..n], x[n..];
    GroupsOfCrlf(x);
    BlankMerging.CollapseHeadRun(x);
    BlankMerging.CollapseHeadRun(y);
    assert y[..|Crlf(run)|] == Crlf(run) && y[|Crlf(run)|..] == Crlf(rest);
    assert NoCrLf(run);
    GroupHasNewline(x);
    ThreeOfCrlf(run);
    CrlfAppend(CollapseBlanks.Three(run), CollapseBlanks.Collapse(rest));
  }

  lemma CollapseCharOfCrlf(x: string)
    requires x != "" && NoCrLf(x) && CollapseBlanks.Groups(x) < 4
    requires CollapseBlanks.Collapse(Crlf(x[1..])) == Crlf(CollapseBlanks.Collapse(x[1..]))
    ensures CollapseBlanks.Collapse(Crlf(x)) == Crlf(CollapseBlanks.Collapse(x))
  {
    var rest := x[1..];
    GroupsOfCrlf(x);
    BlankMerging.CollapseHeadChar(x);
    CrlfOfCons(x[0], CollapseBlanks.Collapse(rest));
    if x[0] == '\n' {
      BlankMerging.EolGroup("\r\n", Crlf(rest));
      LineEndStays(Crlf(rest));
    } else {
      BlankMerging.CollapseHeadChar(Crlf(x));
      assert Crlf(x)[1..] == Crlf(rest);
    }
  }

  lemma StepBlanks(z: string)
    requires Settled3(z)
    ensures Step(BLANKS, Crlf(z)) == Crlf(CollapseBlanks.Collapse(z))
  {
    CollapseOfCrlf(z);
    CollapseWeighsLess(WIDE, z);
    CrlfLength(z);
    CrlfLength(CollapseBlanks.Collapse(z));
  }

  // ---- repeated lines ---------------------------------------------------------------------

  lemma RepeatsCons(l: string, ls: seq<string>)
    requires RepeatsArePlain(ls) && (ls != [] && l == ls[0] ==> PlainEnd(l))
    ensures RepeatsArePlain([l] + ls)
  {
    var all := [l] + ls;
    forall i | 0 < i < |all| && all[i] == all[i - 1] ensures PlainEnd(all[i]) {
      assert all[i] == ls[i - 1] && (i > 1 ==> all[i - 1] == ls[i - 2]);
    }
  }

  lemma FoldedHead(ls: seq<string>) returns (m: string)
    requires GoodLines(ls) && RepeatsArePlain(ls) && ls != [] && FoldsAt(Dedup.DEDUP, ls)
    ensures Dedup.DedupLines(ls) == [ls[0]] + ([m] + Dedup.DedupLines(ls[HeadLength(Dedup.DEDUP, ls)..]))
    ensures PlainEnd(m) && PlainEnd(ls[0])
  {
    var n := HeadLength(Dedup.DEDUP, ls);
    FirstFolded(Dedup.DEDUP, ls);
    HeadOfCrlf(ls);
    assert IsLine(ls[0]);
    m := Dedup.DedupLines(ls)[1];
    EolShape(ls[0]);
  }

  lemma {:induction false} DedupKeepsRepeats(ls: seq<string>)
    requires GoodLines(ls) && RepeatsArePlain(ls)
    ensures RepeatsArePlain(Dedup.DedupLines(ls))
    decreases |ls|
  {
    if ls != [] {
      var n := HeadLength(Dedup.DEDUP, ls);
      var rest := Dedup.DedupLines(ls[n..]);
      LinesTail(ls, n);
      RepeatsTail(ls, n);
      DedupKeepsRepeats(ls[n..]);
      if n < |ls| {
        FoldHead(Dedup.DEDUP, ls[n..]);
      }
      if FoldsAt(Dedup.DEDUP, ls) {
        var m := FoldedHead(ls);
        RepeatsCons(m, rest);
        RepeatsCons(ls[0], [m] + rest);
      } else {
        FirstKept(Dedup.DEDUP, ls);
        assert n < |ls| && ls[0] == ls[1] ==> PlainEnd(ls[1]);
        RepeatsCons(ls[0], rest);
      }
    }
  }

  lemma {:induction false} CapKeepsRepeats(ls: seq<string>, c: nat)
    requires LinesOfText(ls) && RepeatsArePlain(ls)
    ensures RepeatsArePlain(CapLines(ls, c))
    decreases |ls|
  {
    if ls != [] {
      var d := if ls[0] != "\n" then FeedsAtEnd(ls[0]) else if c < 3 then c + 1 else c;
      var rest := CapLines(ls[1..], d);
      LinesTail(ls, 1);
      RepeatsTail(ls, 1);
      CapKeepsRepeats(ls[1..], d);
      if |ls| > 1 {
        assert ls[1] == ls[0] ==> PlainEnd(ls[1]);
        assert ls[0] != "\n" ==> rest != [] && rest[0] == ls[1];
      }
      RepeatsCons(ls[0], rest);
    }
  }

  lemma FiveKeepsRepeats(x: string)
    requires LoneReturns(x) && RepeatsArePlain(SplitLines(First3(x)))
    ensures RepeatsArePlain(SplitLines(Five(WIDE, x)))
  {
    var u := First3(x);
    var ls := SplitLines(u);
    FiveSettles(WIDE, x);
    SplitGivesLines(u);
    JoinOfSplit(u);
    NoCrLfByLine(ls);
    DedupKeepsRepeats(ls);
    Dedup.DedupTextSplits(u);
    SplitGivesLines(GuardedDedup(WIDE, u));
    CapKeepsRepeats(SplitLines(GuardedDedup(WIDE, u)), 0);
    CollapseByLine(GuardedDedup(WIDE, u));
  }

  /** Repeated lines stay repeated. */
  lemma RepeatsOfCrlf(x: string)
    requires LoneReturns(x) && RepeatsArePlain(SplitLines(First3(Crlf(x))))
    ensures RepeatsArePlain(SplitLines(First3(x)))
  {
    var u := First3(x);
    var ls := SplitLines(u);
    First3OfCrlf(x);
    First3Settles(x);
    SplitGivesLines(u);
    JoinOfSplit(u);
    NoCrLfByLine(ls);
    LinesOfCrlf(ls);
    forall i | 0 < i < |ls| && ls[i] == ls[i - 1] ensures PlainEnd(ls[i]) {
      assert PlainEnd(CrlfLines(ls)[i]);
      assert IsLine(ls[i]) && NoCrLf(ls[i]);
      CrlfLine(ls[i]);
    }
  }

  // ---- the pipeline -----------------------------------------------------------------------

  lemma FiveStepsOfCrlf(x: string)
    requires LoneReturns(x) && RepeatsArePlain(SplitLines(First3(x)))
    ensures Step(DUMPS, Step(RULES, Step(TRAILING, Crlf(x)))) == Crlf(First3(x))
    ensures Step(BLANKS, Step(REPEATS, Crlf(First3(x)))) == Crlf(Five(WIDE, x))
  {
    var u := TrailingWs.Strip(x);
    First3OfCrlf(x);
    StepsOfFirst3(Crlf(x));
    StepsOfFirst3(Crlf(u));
    StepsOfFirst3(Crlf(RuleRuns.Shorten(u)));
    FiveSettles(WIDE, x);
    StepRepeats(First3(x));
    StepBlanks(GuardedDedup(WIDE, First3(x)));
  }

  lemma FiveOfCrlf(x: string)
    requires LoneReturns(x) && RepeatsArePlain(SplitLines(First3(x)))
    ensures Compressed([TRAILING, RULES, DUMPS, REPEATS, BLANKS], Crlf(x)) == Crlf(Five(WIDE, x))
  {
    CompressedIsRunAll([TRAILING, RULES, DUMPS, REPEATS, BLANKS], Crlf(x));
    RunAllOfFive(TRAILING, RULES, DUMPS, REPEATS, BLANKS, Crlf(x));
    FiveStepsOfCrlf(x);
  }

  /** Main result: the guarded sequence of the five passes is idempotent on every text whose line feeds
      all end a "\r\n" that no lone return precedes, if lines that repeat end in "\n" or "\r". */
  lemma FivePassesAreIdempotentOnCrlf(t: string)
    requires FeedsAfterReturns(t) && LoneBeforeCrlf(t) && RepeatsArePlain(SplitLines(First3(t)))
    ensures var ps := [TRAILING, RULES, DUMPS, REPEATS, BLANKS];
            Compressed(ps, Compressed(ps, t)) == Compressed(ps, t)
  {
    var x := CrlfOrigin(t);
    var y := Five(WIDE, x);
    RepeatsOfCrlf(x);
    FiveOfCrlf(x);
    FiveSettles(WIDE, x);
    FiveKeepsRepeats(x);
    StrippedIsLone(y);
    First3OfSettled(y);
    FiveOfCrlf(y);
  }

  // ---- texts without other breaks ---------------------------------------------------------

  predicate NotOtherBreak(c: char) {
    IsBreak(c) ==> c == '\n' || c == '\r'
  }

  /** Without form feeds and the like all closed lines end so. */
  lemma PlainTextRepeats(t: string)
    requires All(NotOtherBreak, t)
    ensures RepeatsArePlain(SplitLines(First3(t)))
  {
    var u := First3(t);
    var ls := SplitLines(u);
    HexLiteralsArePlain();
    First3KeepsAll(NotOtherBreak, t);
    SplitGivesLines(u);
    JoinOfSplit(u);
    AllInJoin(NotOtherBreak, ls);
    forall i | 0 < i < |ls| && ls[i] == ls[i - 1] ensures PlainEnd(ls[i]) {
      assert Follows(ls[i - 1], ls[i]);
      assert All(NotOtherBreak, ls[i]) && NotOtherBreak(ls[i][|ls[i]| - 1]);
    }
  }
}
