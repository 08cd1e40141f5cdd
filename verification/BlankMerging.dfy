/**
  When a second `collapse_blanks` does something, on any text: the three bare line ends of a run can
  join a lone carriage return before them to one more blank line end.
 */
module BlankMerging {
  import opened CollapseBlanks
  import opened Substitution
  import opened Text
  import opened TrailingWs
  import opened Wrappers

  /** A run without "\r\n" that starts with a blank: behind a carriage return it will start with a
      line feed instead. */
  predicate IsLooseRun(u: string) {
    u != "" && IsBlank(u[0]) && Groups(u) >= 4 && !HasReturn(u[..GroupsLen(u)])
  }

  /** A lone carriage return and such a run. */
  predicate ReturnAndRun(s: string) {
    s != "" && s[0] == '\r' && IsLooseRun(s[1..])
  }

  /** Somewhere a lone carriage return, with only blanks between it and the line end before it, is
      followed by such a run. `after` says whether only blanks were passed since a line end. */
  predicate Merges(t: string, after: bool) {
    t != "" &&
    ((after && ReturnAndRun(t)) || Merges(t[1..], t[0] == '\n' || (after && IsBlank(t[0]))))
  }

  /** The same with blanks before the carriage return. */
  predicate Bridge(s: string) {
    s != "" && (ReturnAndRun(s) || (IsBlank(s[0]) && Bridge(s[1..])))
  }

  predicate IsEol(e: string) {
    e == "\n" || e == "\r\n"
  }

  lemma EolGroup(e: string, y: string)
    requires IsEol(e)
    ensures GroupLen(e + y) == |e| && Groups(e + y) == 1 + Groups(y)
    ensures NoMatch(BlanksLen, e + y) <==> Groups(y) < 3 && NoMatch(BlanksLen, y)
  {
    var x := e + y;
    GroupsLenIsPositive(x);
    SpanUnique(IsBlank, x, 0);
    assert x[|e|..] == y;
    if e == "\r\n" {
      var z := x[1..];
      assert z[0] == '\n' && z[1..] == y;
      GroupsLenIsPositive(z);
      SpanUnique(IsBlank, z, 0);
    }
  }

  function EolOf(x: string): (e: string)
    ensures IsEol(e)
  {
    if HasReturn(x) then "\r\n" else "\n"
  }

  lemma ThreeIsThree(x: string)
    ensures Three(x) == EolOf(x) + EolOf(x) + EolOf(x)
  {
  }

  lemma RegroupThree(e: string, y: string)
    ensures e + e + e + y == e + (e + (e + y))
  {
  }

  lemma ThreeGroups(x: string, y: string)
    ensures Groups(Three(x) + y) == 3 + Groups(y)
    ensures NoMatch(BlanksLen, Three(x) + y) <==> Groups(y) == 0 && NoMatch(BlanksLen, y)
  {
    var e := EolOf(x);
    ThreeIsThree(x);
    EolGroup(e, y);
    EolGroup(e, e + y);
    EolGroup(e, e + (e + y));
    RegroupThree(e, y);
  }

  lemma {:induction false} RunEnds(t: string)
    ensures GroupLen(t[GroupsLen(t)..]) == 0
    decreases |t|
  {
    if GroupLen(t) > 0 {
      RunEnds(t[GroupLen(t)..]);
      RunStep(t);
    } else {
      assert t[0..] == t;
    }
  }

  lemma BlankAndGroup(s: string)
    requires s != "" && IsBlank(s[0])
    ensures GroupLen(s) == if GroupLen(s[1..]) == 0 then 0 else 1 + GroupLen(s[1..])
    ensures Groups(s) == Groups(s[1..])
  {
    var k := Span(IsBlank, s);
    TailSpan(IsBlank, s);
    assert k < |s| ==> s[1..][k - 1] == s[k];
    assert k + 1 < |s| ==> s[1..][k] == s[k + 1];
    if GroupLen(s) > 0 {
      GroupTail(s);
    }
  }

  lemma {:induction false} NoMatchAfterGroup(x: string)
    requires GroupLen(x) > 0
    ensures NoMatch(BlanksLen, x) <==> Groups(x) < 4 && NoMatch(BlanksLen, x[GroupLen(x)..])
    decreases |x|
  {
    GroupsLenIsPositive(x);
    if GroupLen(x) > 1 {
      GroupTail(x);
      NoMatchAfterGroup(x[1..]);
    }
  }

  lemma CollapseHeadChar(t: string)
    requires t != "" && Groups(t) < 4
    ensures Collapse(t) == [t[0]] + Collapse(t[1..]) && Collapse(t)[1..] == Collapse(t[1..])
  {
  }

  lemma CollapseHeadRun(t: string)
    requires Groups(t) >= 4
    ensures Collapse(t) == Three(t[..GroupsLen(t)]) + Collapse(t[GroupsLen(t)..])
  {
    GroupsLenIsPositive(t);
  }

  /** What starts with a line feed afterwards. */
  lemma FirstOfOutput(u: string)
    requires u != "" && u[0] != '\n' && !IsLooseRun(u)
    ensures Collapse(u) != "" && Collapse(u)[0] != '\n'
  {
    if Groups(u) >= 4 {
      CollapseHeadRun(u);
      if !IsBlank(u[0]) {
        SpanUnique(IsBlank, u, 0);
        assert u[0] == '\r' && u[1] == '\n' && GroupsLen(u) >= 2;
        assert u[..GroupsLen(u)][0] == '\r' && u[..GroupsLen(u)][1] == '\n';
      }
    } else {
      CollapseHeadChar(u);
    }
  }

  /** No line end appears at the head of the output where there was none, but by a bridge. */
  lemma {:induction false} NoGroupAppears(t: string)
    requires GroupLen(t) == 0 && !Bridge(t)
    ensures GroupLen(Collapse(t)) == 0
  {
    if t != "" {
      CollapseHeadChar(t);
      var out := Collapse(t);
      if IsBlank(t[0]) {
        BlankAndGroup(t);
        NoGroupAppears(t[1..]);
        BlankAndGroup(out);
      } else {
        SpanUnique(IsBlank, t, 0);
        SpanUnique(IsBlank, out, 0);
        if t[0] == '\r' && |t| > 1 {
          FirstOfOutput(t[1..]);
        }
      }
    }
  }

  lemma ReturnBeforeNewline(z: string)
    ensures GroupLen("\r" + ("\n" + z)) > 0 && Groups("\r" + ("\n" + z)) == 1 + Groups(z)
    ensures NoMatch(BlanksLen, "\r" + ("\n" + z)) <==> NoMatch(BlanksLen, "\n" + z)
  {
    assert "\r" + ("\n" + z) == "\r\n" + z;
    EolGroup("\n", z);
    EolGroup("\r\n", z);
  }

  /** Behind the carriage return the three bare line ends start with "\r\n". */
  lemma ReturnMerges(s: string)
    requires ReturnAndRun(s)
    ensures GroupLen(s) == 0 && GroupLen(Collapse(s)) > 0 && Groups(Collapse(s)) >= 3
    ensures NoMatch(BlanksLen, Collapse(s)) <==> NoMatch(BlanksLen, Collapse(s[1..]))
  {
    var u := s[1..];
    SpanUnique(IsBlank, s, 0);
    CollapseHeadChar(s);
    CollapseHeadRun(u);
    var y := Collapse(u[GroupsLen(u)..]);
    ThreeIsThree(u[..GroupsLen(u)]);
    RegroupThree("\n", y);
    EolGroup("\n", y);
    EolGroup("\n", "\n" + y);
    ReturnBeforeNewline("\n" + ("\n" + y));
  }

  lemma {:induction false} BridgeMerges(s: string)
    requires Bridge(s)
    ensures GroupLen(s) == 0 && GroupLen(Collapse(s)) > 0 && Groups(Collapse(s)) >= 3
    ensures NoMatch(BlanksLen, Collapse(s)) <==> NoMatch(BlanksLen, Collapse(s[1..]))
  {
    if ReturnAndRun(s) {
      ReturnMerges(s);
    } else {
      BridgeMerges(s[1..]);
      BlankAndGroup(s);
      CollapseHeadChar(s);
      var out := Collapse(s);
      BlankAndGroup(out);
      GroupsLenIsPositive(out);
      GroupsLenIsPositive(out[1..]);
    }
  }

  /** The line ends at the head of the output are those of the input, or a bridge adds three. */
  lemma {:induction false} GroupsOfOutput(s: string)
    requires Groups(s) < 4
    ensures Groups(Collapse(s)) == Groups(s) || Groups(Collapse(s)) >= Groups(s) + 3
    ensures GroupLen(s) > 0 ==>
      GroupLen(Collapse(s)) == GroupLen(s) && Collapse(s)[GroupLen(s)..] == Collapse(s[GroupLen(s)..])
    decreases |s|
  {
    if GroupLen(s) == 0 {
      if Bridge(s) {
        BridgeMerges(s);
      } else {
        NoGroupAppears(s);
      }
    } else {
      var n := GroupLen(s);
      var out := Collapse(s);
      CopyGroup(s);
      GroupsOfOutput(s[n..]);
      GroupOfPrefix(s, out);
      assert out[n..] == Collapse(s[n..]);
    }
  }

  lemma GroupOfPrefix(s: string, out: string)
    requires GroupLen(s) > 0 && s[..GroupLen(s)] <= out
    ensures GroupLen(out) == GroupLen(s)
  {
    var n, k := GroupLen(s), Span(IsBlank, s);
    assert out[..n] == s[..n];
    assert out[..k] == s[..n][..k] == s[..k];
    assert out[k] == s[..n][k] == s[k];
    assert k + 1 < n ==> out[k + 1] == s[..n][k + 1];
    SpanUnique(IsBlank, out, k);
  }

  lemma {:induction false} MergesAfterGroup(t: string, after: bool)
    requires GroupLen(t) > 0
    ensures Merges(t, after) == Merges(t[GroupLen(t)..], true)
    decreases |t|
  {
    if GroupLen(t) > 1 {
      GroupTail(t);
      MergesAfterGroup(t[1..], t[0] == '\n' || (after && IsBlank(t[0])));
      SpanUnique(IsBlank, t, Span(IsBlank, t));
    }
  }

  lemma {:induction false} MergesAfterRun(t: string, after: bool)
    requires GroupLen(t) > 0
    ensures Merges(t, after) == Merges(t[GroupsLen(t)..], true)
    decreases |t|
  {
    var rest := t[GroupLen(t)..];
    MergesAfterGroup(t, after);
    RunStep(t);
    if GroupLen(rest) > 0 {
      MergesAfterRun(rest, true);
    }
  }

  /** The output has four line ends in a row exactly if the text merges. */
  lemma {:induction false} MergesIff(t: string)
    ensures Merges(t, false) <==> !NoMatch(BlanksLen, Collapse(t))
    ensures Merges(t, true) <==> !NoMatch(BlanksLen, Collapse(t)) || Bridge(t)
    decreases |t|
  {
    if t == "" {
    } else if Groups(t) >= 4 {
      MergesAtRun(t);
    } else if GroupLen(t) > 0 {
      MergesAtGroup(t);
    } else {
      MergesIff(t[1..]);
      CollapseHeadChar(t);
      if Bridge(t) {
        BridgeMerges(t);
      } else {
        NoGroupAppears(t);
      }
    }
  }

  lemma {:induction false} MergesAtRun(t: string)
    requires Groups(t) >= 4
    ensures Merges(t, false) == Merges(t, true) == !NoMatch(BlanksLen, Collapse(t)) && !Bridge(t)
    decreases |t|, 0
  {
    GroupsLenIsPositive(t);
    var rest := t[GroupsLen(t)..];
    MergesIff(rest);
    RunEnds(t);
    MergesAfterRun(t, false);
    MergesAfterRun(t, true);
    CollapseHeadRun(t);
    ThreeGroups(t[..GroupsLen(t)], Collapse(rest));
    if Bridge(t) {
      BridgeMerges(t);
    }
    if Bridge(rest) {
      BridgeMerges(rest);
    } else {
      NoGroupAppears(rest);
    }
  }

  lemma {:induction false} MergesAtGroup(t: string)
    requires 0 < Groups(t) < 4
    ensures Merges(t, false) == Merges(t, true) == !NoMatch(BlanksLen, Collapse(t)) && !Bridge(t)
    decreases |t|, 0
  {
    var rest, out := t[GroupLen(t)..], Collapse(t);
    MergesIff(rest);
    MergesAfterGroup(t, false);
    MergesAfterGroup(t, true);
    GroupsOfOutput(t);
    GroupsOfOutput(rest);
    NoMatchAfterGroup(out);
    GroupsLenIsPositive(Collapse(rest));
    if Bridge(t) {
      BridgeMerges(t);
    }
    if Bridge(rest) {
      BridgeMerges(rest);
    } else if GroupLen(rest) == 0 {
      NoGroupAppears(rest);
    }
  }

  const NEWLINES: Weight := (c: char) => if c == '\n' then 1 else 0

  lemma {:induction false} NewlinesOfRun(t: string)
    ensures Weigh(NEWLINES, t[..GroupsLen(t)]) >= Groups(t)
    decreases |t|
  {
    var n := GroupLen(t);
    if n > 0 {
      var rest := t[n..];
      NewlinesOfRun(rest);
      RunStep(t);
      WeighAppend(NEWLINES, t[..n], rest[..GroupsLen(rest)]);
      assert t[..n] == t[..n - 1] + [t[n - 1]] && t[n - 1] == '\n';
      WeighAppend(NEWLINES, t[..n - 1], "\n");
    }
  }

  lemma NewlinesOfThree(x: string)
    ensures Weigh(NEWLINES, Three(x)) == 3
  {
    var e := EolOf(x);
    ThreeIsThree(x);
    WeighAppend(NEWLINES, e + e, e);
    WeighAppend(NEWLINES, e, e);
    assert "\r\n"[1..] == "\n" && "\n"[1..] == "";
    assert Weigh(NEWLINES, "\n") == 1;
  }

  lemma {:induction false} CollapseLosesNewlines(t: string)
    ensures Weigh(NEWLINES, Collapse(t)) <= Weigh(NEWLINES, t)
    ensures Weigh(NEWLINES, Collapse(t)) == Weigh(NEWLINES, t) ==> NoMatch(BlanksLen, t)
    decreases |t|
  {
    if t != "" {
      GroupsLenIsPositive(t);
      var n := if Groups(t) >= 4 then GroupsLen(t) else 1;
      var rest := t[n..];
      CollapseLosesNewlines(rest);
      Rejoin(t, n);
      WeighAppend(NEWLINES, t[..n], rest);
      if Groups(t) >= 4 {
        CollapseHeadRun(t);
        NewlinesOfRun(t);
        NewlinesOfThree(t[..n]);
        WeighAppend(NEWLINES, Three(t[..n]), Collapse(rest));
      } else {
        CollapseHeadChar(t);
        assert t[..1] == [t[0]];
        WeighAppend(NEWLINES, [t[0]], Collapse(rest));
      }
    }
  }

  /** Main result on any text: a second pass does nothing exactly if nowhere a lone carriage return on
      an otherwise blank line is followed by a run without "\r\n" that starts with a blank. */
  lemma CollapseIsIdempotentIff(t: string)
    ensures Collapse(Collapse(t)) == Collapse(t) <==> !Merges(t, false)
  {
    MergesIff(t);
    CollapseLosesNewlines(Collapse(t));
    if NoMatch(BlanksLen, Collapse(t)) {
      SubOfNoMatch(BlanksLen, Three, Collapse(t));
    }
  }

  lemma FourNewlines(v: string)
    requires v == "\n\n\n\n"
    ensures Groups(v) == 4
  {
    var e := "\n";
    EolGroup(e, "");
    EolGroup(e, e + "");
    EolGroup(e, e + (e + ""));
    EolGroup(e, e + (e + (e + "")));
    assert v == e + (e + (e + (e + "")));
  }

  lemma LooseRun(u: string)
    requires u == " \n\n\n\n"
    ensures IsLooseRun(u)
  {
    assert u[1..] == "\n\n\n\n";
    FourNewlines(u[1..]);
    BlankAndGroup(u);
    assert forall i | 0 <= i < |u| :: u[i] != '\r';
  }

  /** A line end, a carriage return, and four line ends of which the first has a blank. */
  lemma MergingWitness()
    ensures var t := "\n\r \n\n\n\n"; Collapse(Collapse(t)) != Collapse(t)
  {
    var t := "\n\r \n\n\n\n";
    var s := t[1..];
    assert s == "\r \n\n\n\n" && s[1..] == " \n\n\n\n";
    LooseRun(s[1..]);
    assert Merges(t, false);
    CollapseIsIdempotentIff(t);
  }
}
