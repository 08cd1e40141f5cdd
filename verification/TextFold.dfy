/**
  Run folding on texts. The joined output splits into the shown lines again, but for two things: a marker
  with a break inside is more than one line, and a marker that ends in "\r" takes a blank line "\n"
  behind it for the other half of its end.
 */
module TextFold {
  import opened RunFold
  import opened Text
  import opened Wrappers

  function HeadMarker(rule: Rule, s: seq<string>): string
    requires s != [] && FoldsAt(rule, s)
  {
    rule.marker(s[0], rule.key(s[0]).value, RunAt(rule, s))
  }

  /** The run at the head is folded, and its marker takes the line feed behind it. */
  predicate Swallows(rule: Rule, s: seq<string>)
    requires s != []
  {
    FoldsAt(rule, s) && RunAt(rule, s) < |s| && s[RunAt(rule, s)] == "\n" && EndsInReturn(HeadMarker(rule, s))
  }

  /** How many lines the first piece takes from the text. */
  function Taken(rule: Rule, s: seq<string>): (n: nat)
    requires s != []
    ensures 1 <= n <= |s|
  {
    HeadLength(rule, s) + if Swallows(rule, s) then 1 else 0
  }

  function ShownMarker(rule: Rule, s: seq<string>): string
    requires s != [] && FoldsAt(rule, s)
  {
    HeadMarker(rule, s) + if Swallows(rule, s) then "\n" else ""
  }

  /** The lines that the output has for the first piece. */
  function ShownLines(rule: Rule, s: seq<string>): seq<string>
    requires s != []
  {
    if FoldsAt(rule, s) then KeptLines(rule, s[0]) + SplitLines(ShownMarker(rule, s))
    else [s[0]]
  }

  /** The lines of the output. */
  function TextLines(rule: Rule, s: seq<string>): seq<string>
    decreases |s|
  {
    if s == [] then [] else ShownLines(rule, s) + TextLines(rule, s[Taken(rule, s)..])
  }

  /** Markers are closed lines, or two, that may stand where their line stands; and blank lines have no key. */
  ghost predicate Closes(rule: Rule) {
    && rule.key("\n") == None
    && forall a, k, n: nat | IsLine(a) && rule.key(a) == Some(k) :: IsClosing(rule.marker(a, k, n), a)
  }

  predicate IsClosing(m: string, a: string) {
    && m != "" && IsBreak(m[|m| - 1]) && m[0] != '\n' && (EndsInReturn(m) ==> EndsInReturn(a))
    && |SplitLines(m)| <= 2
  }

  lemma {:induction false} JoinOfTextLines(rule: Rule, s: seq<string>)
    requires rule.key("\n") == None
    ensures Join(TextLines(rule, s)) == Join(Fold(rule, s))
    decreases |s|
  {
    if s != [] {
      var n := Taken(rule, s);
      JoinOfTextLines(rule, s[n..]);
      JoinAppend(ShownLines(rule, s), TextLines(rule, s[n..]));
      if FoldsAt(rule, s) {
        JoinOfFolded(rule, s);
      }
    }
  }

  lemma JoinSnoc(front: seq<string>, l: string)
    ensures Join(front + [l]) == Join(front) + l
  {
    JoinAppend(front, [l]);
    JoinOfCons(l, []);
    assert l + "" == l;
  }

  lemma FeedMoves(a: string, m: string, rest: string)
    ensures (a + (m + "\n")) + rest == (a + m) + ("\n" + rest)
  {
  }

  lemma RestBehindFeed(rule: Rule, s: seq<string>, n: nat)
    requires rule.key("\n") == None && n < |s| && s[n] == "\n"
    ensures Join(Fold(rule, s[n..])) == "\n" + Join(Fold(rule, s[n + 1..]))
  {
    assert s[n..][0] == "\n" && s[n..][1..] == s[n + 1..];
    JoinOfCons("\n", Fold(rule, s[n + 1..]));
  }

  function KeptLines(rule: Rule, a: string): seq<string> {
    if rule.keepFirst then [a] else []
  }

  lemma JoinOfShown(rule: Rule, s: seq<string>)
    requires s != [] && FoldsAt(rule, s)
    ensures Join(ShownLines(rule, s)) == Join(KeptLines(rule, s[0])) + ShownMarker(rule, s)
  {
    JoinAppend(KeptLines(rule, s[0]), SplitLines(ShownMarker(rule, s)));
    JoinOfSplit(ShownMarker(rule, s));
  }

  lemma JoinOfFold(rule: Rule, s: seq<string>)
    requires s != [] && FoldsAt(rule, s)
    ensures Join(Fold(rule, s))
         == (Join(KeptLines(rule, s[0])) + HeadMarker(rule, s)) + Join(Fold(rule, s[RunAt(rule, s)..]))
  {
    var m := HeadMarker(rule, s);
    assert Rendered(rule, s[0], rule.key(s[0]).value, RunAt(rule, s)) == KeptLines(rule, s[0]) + [m];
    JoinAppend(KeptLines(rule, s[0]) + [m], Fold(rule, s[RunAt(rule, s)..]));
    JoinSnoc(KeptLines(rule, s[0]), m);
  }

  lemma JoinOfFolded(rule: Rule, s: seq<string>)
    requires rule.key("\n") == None && s != [] && FoldsAt(rule, s)
    ensures Join(ShownLines(rule, s)) + Join(Fold(rule, s[Taken(rule, s)..])) == Join(Fold(rule, s))
  {
    var m, n := HeadMarker(rule, s), RunAt(rule, s);
    JoinOfShown(rule, s);
    JoinOfFold(rule, s);
    if Swallows(rule, s) {
      RestBehindFeed(rule, s, n);
      FeedMoves(Join(KeptLines(rule, s[0])), m, Join(Fold(rule, s[n + 1..])));
    } else {
      assert m + "" == m;
    }
  }

  lemma LastOfSplit(t: string)
    requires t != ""
    ensures var ls := SplitLines(t);
            && LinesOfText(ls) && ls != [] && ls[0] != "" && ls[0][0] == t[0]
            && ls[|ls| - 1] != "" && ls[|ls| - 1][|ls[|ls| - 1]| - 1] == t[|t| - 1]
  {
    var ls := SplitLines(t);
    SplitGivesLines(t);
    JoinOfSplit(t);
    JoinedStart(ls);
    assert IsLine(ls[|ls| - 1]);
    JoinedEnd(ls);
  }

  lemma {:induction false} JoinedEnd(ls: seq<string>)
    requires ls != [] && ls[|ls| - 1] != ""
    ensures Join(ls) != "" && Join(ls)[|Join(ls)| - 1] == ls[|ls| - 1][|ls[|ls| - 1]| - 1]
  {
    if |ls| > 1 {
      JoinedEnd(ls[1..]);
    }
  }

  /** A line that starts with "\n" only if `h` does may come behind `l`. */
  predicate LeadsTo(l: string, h: string) {
    l != "" && IsBreak(l[|l| - 1]) && (EndsInReturn(l) && h != "" ==> h[0] != '\n')
  }

  predicate StartsAs(x: string, h: string) {
    x != "" && h != "" && (x[0] == '\n' ==> h[0] == '\n')
  }

  lemma LinesJoin(ls: seq<string>, rest: seq<string>, h: string)
    requires LinesOfText(ls) && ls != [] && LinesOfText(rest)
    requires rest != [] ==> LeadsTo(ls[|ls| - 1], h) && StartsAs(rest[0], h)
    ensures LinesOfText(ls + rest)
  {
    LinesAppend(ls, rest);
  }

  /** The shown lines are the lines of a text, after which the next line may come. */
  lemma ShownAreLines(rule: Rule, s: seq<string>)
    requires Closes(rule) && rule.least >= 2 && LinesOfText(s) && s != []
    ensures var ls, n := ShownLines(rule, s), Taken(rule, s);
            && LinesOfText(ls) && ls != [] && StartsAs(ls[0], s[0]) && (n < |s| ==> LeadsTo(ls[|ls| - 1], s[n]))
  {
    if FoldsAt(rule, s) {
      FoldedAreLines(rule, s);
    } else {
      assert |s| > 1 ==> Follows(s[0], s[1]);
      LinesPrefix(s, 1);
      assert s[..1] == [s[0]];
      assert IsLine(s[0]);
    }
  }

  lemma FoldedAreLines(rule: Rule, s: seq<string>)
    requires Closes(rule) && rule.least >= 2 && LinesOfText(s) && s != [] && FoldsAt(rule, s)
    ensures var ls, n := ShownLines(rule, s), Taken(rule, s);
            && LinesOfText(ls) && ls != [] && StartsAs(ls[0], s[0]) && (n < |s| ==> LeadsTo(ls[|ls| - 1], s[n]))
  {
    var m, g, n := HeadMarker(rule, s), ShownMarker(rule, s), RunAt(rule, s);
    assert IsLine(s[0]) && IsClosing(m, s[0]);
    assert g[0] == m[0] && IsBreak(g[|g| - 1]);
    LastOfSplit(g);
    assert Follows(s[0], s[1]);
    if rule.keepFirst {
      LinesCons(s[0], SplitLines(g));
    }
    if n < |s| && s[n] != "" && s[n][0] == '\n' {
      assert IsLine(s[n]);
      FeedAlone(s[n]);
    }
  }

  lemma FeedAlone(l: string)
    requires IsLine(l) && l[0] == '\n'
    ensures l == "\n"
  {
  }

  lemma {:induction false} TextLinesAreLines(rule: Rule, s: seq<string>)
    requires Closes(rule) && rule.least >= 2 && LinesOfText(s)
    ensures LinesOfText(TextLines(rule, s))
    ensures s != [] ==> TextLines(rule, s) != [] && StartsAs(TextLines(rule, s)[0], s[0])
    decreases |s|
  {
    if s != [] {
      var n := Taken(rule, s);
      ShownAreLines(rule, s);
      LinesTail(s, n);
      TextLinesAreLines(rule, s[n..]);
      LinesJoin(ShownLines(rule, s), TextLines(rule, s[n..]), if n < |s| then s[n] else "");
    }
  }

  lemma OutputSplits(rule: Rule, s: seq<string>)
    requires Closes(rule) && rule.least >= 2 && LinesOfText(s)
    ensures SplitLines(Join(Fold(rule, s))) == TextLines(rule, s)
  {
    TextLinesAreLines(rule, s);
    SplitOfJoin(TextLines(rule, s));
    JoinOfTextLines(rule, s);
  }

  /** A line feed behind a return makes no new line. */
  lemma SplitOfReturn(m: string)
    requires EndsInReturn(m)
    ensures |SplitLines(m + "\n")| == |SplitLines(m)|
  {
    var ls := SplitLines(m);
    LastOfSplit(m);
    JoinOfSplit(m);
    var front, last := ls[..|ls| - 1], ls[|ls| - 1];
    assert ls == front + [last];
    FeedBehindLast(front, last);
    JoinSnoc(front, last);
    JoinSnoc(front, last + "\n");
    Regroup(Join(front), last, "\n");
    SplitOfJoin(front + [last + "\n"]);
  }

  lemma FeedBehindLast(front: seq<string>, last: string)
    requires LinesOfText(front + [last]) && EndsInReturn(last)
    ensures LinesOfText(front + [last + "\n"])
  {
    var ls, ms := front + [last], front + [last + "\n"];
    assert IsLine(ls[|front|]);
    ReturnLine(last);
    forall i | 0 <= i < |ms| ensures IsLine(ms[i]) {
      assert IsLine(ls[i]);
    }
    forall i | 0 < i < |ms| ensures Follows(ms[i - 1], ms[i]) {
      assert Follows(ls[i - 1], ls[i]);
    }
  }

  lemma ReturnLine(l: string)
    requires IsLine(l) && EndsInReturn(l)
    ensures IsLine(l + "\n") && (l + "\n")[0] == l[0]
  {
    var b, e := LineShape(l);
    assert e == "" ==> !IsBreak(b[|b| - 1]);
    assert e[|e| - 1] == '\r' && e == "\r";
    LineOfShape(b, "\r\n");
    assert l + "\n" == b + "\r\n";
  }

  lemma FewAreShown(rule: Rule, s: seq<string>)
    requires Closes(rule) && s != [] && IsLine(s[0]) && FoldsAt(rule, s)
    ensures |ShownLines(rule, s)| <= 3
  {
    var m := HeadMarker(rule, s);
    assert IsClosing(m, s[0]);
    if Swallows(rule, s) {
      SplitOfReturn(m);
    }
    assert m + "" == m;
  }

  /** Folding makes fewer lines, if it folds at all. */
  lemma {:induction false} TextLinesShorten(rule: Rule, s: seq<string>)
    requires Closes(rule) && rule.least >= 4 && forall l | l in s :: IsLine(l)
    ensures |TextLines(rule, s)| <= |s|
    ensures |TextLines(rule, s)| == |s| ==> Settled(rule, s)
    decreases |s|
  {
    if s != [] {
      TextLinesShorten(rule, s[Taken(rule, s)..]);
      SettledTail(rule, s);
      if FoldsAt(rule, s) {
        FewAreShown(rule, s);
      }
    }
  }

  /** On texts: a second pass does nothing exactly if no run is left among the lines of the output. */
  lemma TextIsFixedIff(rule: Rule, s: seq<string>)
    requires Closes(rule) && rule.least >= 4 && LinesOfText(s)
    ensures Join(Fold(rule, s)) == Join(s) <==> Settled(rule, s)
  {
    if Settled(rule, s) {
      FoldOfSettled(rule, s);
    }
    if Join(Fold(rule, s)) == Join(s) {
      OutputSplits(rule, s);
      SplitOfJoin(s);
      TextLinesShorten(rule, s);
    }
  }

  // ---- markers of one line ----------------------------------------------------------------

  lemma OneLine(l: string)
    requires IsLine(l)
    ensures SplitLines(l) == [l]
  {
    assert l[..|l|] == l && l[|l|..] == "";
  }

  lemma ReturnContent(m: string)
    requires EndsInReturn(m)
    ensures Content(m + "\n") == Content(m)
  {
    assert (m + "\n")[..|m|] == m;
  }

  /** With the line feed it takes, a marker is still a line of the same content. */
  lemma ShownMarkerLine(rule: Rule, s: seq<string>) returns (g: string)
    requires s != [] && FoldsAt(rule, s) && IsLine(HeadMarker(rule, s))
    ensures g == ShownMarker(rule, s) && SplitLines(g) == [g] && IsLine(g)
    ensures Content(g) == Content(HeadMarker(rule, s))
  {
    var m := HeadMarker(rule, s);
    g := ShownMarker(rule, s);
    if Swallows(rule, s) {
      ReturnLine(m);
      ReturnContent(m);
    }
    assert m + "" == m;
    OneLine(g);
  }

  /** A folded run is shown as its first line and the marker ... */
  lemma TwoAreShown(rule: Rule, s: seq<string>) returns (g: string)
    requires s != [] && FoldsAt(rule, s) && rule.keepFirst && IsLine(HeadMarker(rule, s))
    ensures ShownLines(rule, s) == [s[0], g] && Content(g) == Content(HeadMarker(rule, s))
  {
    g := ShownMarkerLine(rule, s);
  }

  /** ... or, if the marker is two lines, as three. */
  lemma ThreeAreShown(rule: Rule, s: seq<string>, a: string, b: string)
    requires s != [] && FoldsAt(rule, s) && rule.keepFirst && SplitLines(HeadMarker(rule, s)) == [a, b]
    requires !EndsInReturn(HeadMarker(rule, s))
    ensures ShownLines(rule, s) == [s[0], a, b]
  {
    assert HeadMarker(rule, s) + "" == HeadMarker(rule, s);
  }

  // ---- rules that keep the first line -----------------------------------------------------

  lemma FirstIsShown(rule: Rule, s: seq<string>)
    requires s != [] && (rule.keepFirst || !FoldsAt(rule, s))
    ensures TextLines(rule, s) != [] && TextLines(rule, s)[0] == s[0]
    ensures !FoldsAt(rule, s) ==> Taken(rule, s) == 1 && TextLines(rule, s)[1..] == TextLines(rule, s[1..])
  {
  }

  /** Behind a line that is kept the lines with its key are kept, too. */
  lemma {:induction false} KeptFollowers(rule: Rule, k: string, s: seq<string>)
    requires ByKey(rule) && rule.keepFirst && Followers(rule, k, s) + 1 < rule.least
    ensures Followers(rule, k, TextLines(rule, s)) <= Followers(rule, k, s)
  {
    if s != [] {
      FirstIsShown(rule, s);
      if rule.key(s[0]) == Some(k) {
        KeptFollowers(rule, k, s[1..]);
      }
    }
  }

  lemma KeptSettles(rule: Rule, s: seq<string>)
    requires ByKey(rule) && rule.keepFirst && s != [] && !FoldsAt(rule, s)
    ensures Settled(rule, TextLines(rule, s)) <==> Settled(rule, TextLines(rule, s[Taken(rule, s)..]))
  {
    FirstIsShown(rule, s);
    SettledTail(rule, TextLines(rule, s));
    if rule.key(s[0]).Some? {
      KeptFollowers(rule, rule.key(s[0]).value, s[1..]);
    }
  }

  // ---- rules that show a run by its marker alone ------------------------------------------

  ghost predicate OneLineMarkers(rule: Rule) {
    forall a, k, n: nat | IsLine(a) && rule.key(a) == Some(k) :: IsLine(rule.marker(a, k, n))
  }

  /** The one line that the output has for the first piece. */
  function Shown(rule: Rule, s: seq<string>): string
    requires s != []
  {
    if FoldsAt(rule, s) then ShownMarker(rule, s) else s[0]
  }

  /** How many pieces at the head of `s` are shown by lines that go on with the run of key `k`. */
  function ShownFollowers(rule: Rule, k: string, s: seq<string>): nat {
    if s == [] || !rule.same(k, Shown(rule, s)) then 0
    else 1 + ShownFollowers(rule, k, s[Taken(rule, s)..])
  }

  /** The lines that are shown for the first pieces make up a run. */
  predicate HeadGathers(rule: Rule, s: seq<string>)
    requires s != []
  {
    match rule.key(Shown(rule, s))
    case None => false
    case Some(k) => rule.least <= 1 + ShownFollowers(rule, k, s[Taken(rule, s)..])
  }

  predicate Gathers(rule: Rule, s: seq<string>) {
    s != [] && (HeadGathers(rule, s) || Gathers(rule, s[Taken(rule, s)..]))
  }

  lemma OneIsShown(rule: Rule, s: seq<string>)
    requires OneLineMarkers(rule) && !rule.keepFirst && s != [] && IsLine(s[0])
    ensures TextLines(rule, s) == [Shown(rule, s)] + TextLines(rule, s[Taken(rule, s)..])
    ensures TextLines(rule, s)[1..] == TextLines(rule, s[Taken(rule, s)..])
  {
    if FoldsAt(rule, s) {
      var g := ShownMarkerLine(rule, s);
      assert [] + [g] == [g];
    }
  }

  lemma {:induction false} FollowersOfShown(rule: Rule, k: string, s: seq<string>)
    requires OneLineMarkers(rule) && !rule.keepFirst && forall l | l in s :: IsLine(l)
    ensures Followers(rule, k, TextLines(rule, s)) == ShownFollowers(rule, k, s)
    decreases |s|
  {
    if s != [] {
      OneIsShown(rule, s);
      FollowersOfShown(rule, k, s[Taken(rule, s)..]);
    }
  }

  lemma {:induction false} SettlesUnlessGathers(rule: Rule, s: seq<string>)
    requires OneLineMarkers(rule) && !rule.keepFirst && forall l | l in s :: IsLine(l)
    ensures Settled(rule, TextLines(rule, s)) <==> !Gathers(rule, s)
    decreases |s|
  {
    if s != [] {
      var rest := s[Taken(rule, s)..];
      OneIsShown(rule, s);
      SettlesUnlessGathers(rule, rest);
      SettledTail(rule, TextLines(rule, s));
      if rule.key(Shown(rule, s)).Some? {
        FollowersOfShown(rule, rule.key(Shown(rule, s)).value, rest);
      }
    }
  }

  /** Main result for these rules: on every text a second pass does nothing exactly if the lines shown for the
      pieces nowhere gather to a run. */
  lemma MarkerFoldIsIdempotentIff(rule: Rule, s: seq<string>)
    requires Closes(rule) && OneLineMarkers(rule) && !rule.keepFirst && rule.least >= 4 && LinesOfText(s)
    ensures var once := Join(Fold(rule, s));
            Join(Fold(rule, SplitLines(once))) == once <==> !Gathers(rule, s)
  {
    OutputSplits(rule, s);
    TextLinesAreLines(rule, s);
    JoinOfTextLines(rule, s);
    TextIsFixedIff(rule, TextLines(rule, s));
    SettlesUnlessGathers(rule, s);
  }
}
