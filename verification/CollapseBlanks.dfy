/** `collapse_blanks` (engine/simplicio_compress.py): four or more blank line ends become three. */
module CollapseBlanks {
  import opened Substitution
  import opened Text
  import opened TrailingWs
  import opened Wrappers

  /** The length of `[ \t]*\r?\n` at the head of `s`. */
  function GroupLen(s: string): (n: nat)
    ensures n <= |s|
  {
    var k := Span(IsBlank, s);
    if k < |s| && s[k] == '\n' then k + 1
    else if k + 1 < |s| && s[k] == '\r' && s[k + 1] == '\n' then k + 2
    else 0
  }

  function Groups(s: string): nat
    decreases |s|
  {
    if GroupLen(s) == 0 then 0 else 1 + Groups(s[GroupLen(s)..])
  }

  function GroupsLen(s: string): (n: nat)
    ensures n <= |s|
    decreases |s|
  {
    if GroupLen(s) == 0 then 0 else GroupLen(s) + GroupsLen(s[GroupLen(s)..])
  }

  /** `(?:[ \t]*\r?\n){4,}` */
  function BlanksLen(s: string): nat {
    if Groups(s) >= 4 then GroupsLen(s) else 0
  }

  predicate HasReturn(x: string) {
    exists i | 0 <= i < |x| - 1 :: x[i] == '\r' && x[i + 1] == '\n'
  }

  function Three(x: string): string {
    if HasReturn(x) then "\r\n\r\n\r\n" else "\n\n\n"
  }

  function Collapse(t: string): string {
    Sub(BlanksLen, Three, t)
  }

  // ---- on stripped texts ------------------------------------------------------------------

  /** Texts without "\r\n" that `trailing_ws` leaves alone. */
  predicate Clean(t: string) {
    NoCrLf(t) && NoMatch(TrailingLen, t)
  }

  predicate IsNewline(c: char) { c == '\n' }

  /** A reference definition: of every run of line feeds the first three stay. `c` counts those of
      the current run that were passed already. */
  function Cap(t: string, c: nat): string {
    if t == "" then ""
    else if t[0] != '\n' then [t[0]] + Cap(t[1..], 0)
    else if c < 3 then ['\n'] + Cap(t[1..], c + 1)
    else Cap(t[1..], c)
  }

  lemma CleanTail(t: string, i: nat)
    requires Clean(t) && i <= |t|
    ensures Clean(t[i..])
  {
    NoMatchAt(TrailingLen, t, i);
    assert forall j | 0 <= j < |t| - i :: t[i..][j] == t[i + j];
  }

  lemma {:induction false} GroupsOfClean(t: string)
    requires Clean(t)
    ensures Groups(t) == GroupsLen(t) == Span(IsNewline, t)
    decreases |t|
  {
    if t == "" {
    } else if t[0] == '\n' {
      SpanUnique(IsBlank, t, 0);
      CleanTail(t, 1);
      GroupsOfClean(t[1..]);
      TailSpan(IsNewline, t);
    } else {
      var k := Span(IsBlank, t);
      assert !Matches(TrailingLen, t);
      assert GroupLen(t) == 0;
    }
  }

  function Least(a: nat, b: nat): nat {
    if a < b then a else b
  }

  lemma {:induction false} CapOfRun(t: string, c: nat)
    requires c <= 3
    ensures var n := Span(IsNewline, t);
            Cap(t, c) == Repeat('\n', Least(n, 3 - c)) + Cap(t[n..], 0)
    decreases |t|
  {
    var n := Span(IsNewline, t);
    if n == 0 {
      assert t[0..] == t;
    } else {
      TailSpan(IsNewline, t);
      assert t[1..][n - 1..] == t[n..];
      CapOfRun(t[1..], if c < 3 then c + 1 else c);
      OneMoreFeed(n - 1, c, Cap(t[n..], 0));
    }
  }

  lemma OneMoreFeed(n: nat, c: nat, rest: string)
    requires c <= 3
    ensures c < 3 ==> Repeat('\n', Least(n + 1, 3 - c)) + rest == ['\n'] + (Repeat('\n', Least(n, 2 - c)) + rest)
    ensures c == 3 ==> Least(n + 1, 3 - c) == Least(n, 3 - c)
  {
    if c < 3 {
      RepeatCons('\n', Least(n, 2 - c), rest);
    }
  }

  lemma CollapseHead(t: string)
    requires t != "" && Groups(t) < 4
    ensures Collapse(t) == [t[0]] + Collapse(t[1..])
  {
  }

  lemma {:induction false} ShortRunStays(t: string)
    requires Clean(t) && Span(IsNewline, t) < 4
    ensures var n := Span(IsNewline, t); Collapse(t) == Repeat('\n', n) + Collapse(t[n..])
    decreases |t|
  {
    var n := Span(IsNewline, t);
    if n == 0 {
      assert t[0..] == t;
    } else {
      GroupsOfClean(t);
      CollapseHead(t);
      TailSpan(IsNewline, t);
      CleanTail(t, 1);
      ShortRunStays(t[1..]);
      assert t[1..][n - 1..] == t[n..];
      RepeatCons('\n', n - 1, Collapse(t[n..]));
    }
  }

  lemma CollapseRun(t: string)
    requires Clean(t)
    ensures var n := Span(IsNewline, t);
            Collapse(t) == Repeat('\n', Least(n, 3)) + Collapse(t[n..])
  {
    var n := Span(IsNewline, t);
    GroupsOfClean(t);
    if n < 4 {
      ShortRunStays(t);
    } else {
      assert forall i | 0 <= i < n :: t[..n][i] == t[i];
      assert Repeat('\n', 3) == "\n\n\n";
    }
  }

  /** Main result on stripped texts: exactly the line feeds beyond the third of a run go. */
  lemma {:induction false} CollapseIsCap(t: string)
    requires Clean(t)
    ensures Collapse(t) == Cap(t, 0)
    decreases |t|
  {
    var n := Span(IsNewline, t);
    GroupsOfClean(t);
    if t == "" {
    } else if n == 0 {
      CleanTail(t, 1);
      CollapseIsCap(t[1..]);
    } else {
      CollapseRun(t);
      CapOfRun(t, 0);
      CleanTail(t, n);
      CollapseIsCap(t[n..]);
    }
  }

  lemma {:induction false} CapTwice(t: string, c: nat)
    requires c <= 3
    ensures Cap(Cap(t, c), c) == Cap(t, c)
    decreases |t|
  {
    if t != "" {
      var d := if t[0] != '\n' then 0 else if c < 3 then c + 1 else c;
      CapTwice(t[1..], d);
      assert Cap(t, c) != Cap(t[1..], c) ==> Cap(t, c)[1..] == Cap(t[1..], d);
    }
  }

  lemma {:induction false} CapWeighsLess(w: Weight, t: string, c: nat)
    requires w('\n') > 0
    ensures Weigh(w, Cap(t, c)) <= Weigh(w, t)
    ensures Weigh(w, Cap(t, c)) == Weigh(w, t) ==> Cap(t, c) == t
  {
    if t != "" {
      var d := if t[0] != '\n' then 0 else if c < 3 then c + 1 else c;
      CapWeighsLess(w, t[1..], d);
      assert ([t[0]] + Cap(t[1..], d))[1..] == Cap(t[1..], d);
    }
  }

  // ---- on any text: what it does ----------------------------------------------------------

  lemma {:induction false} GroupsLenIsPositive(s: string)
    ensures Matches(BlanksLen, s) <==> Groups(s) >= 4
    ensures GroupLen(s) > 0 ==> GroupsLen(s) > 0
  {
  }

  /** What is left of a group is a group. */
  lemma GroupTail(s: string)
    requires GroupLen(s) > 1
    ensures GroupLen(s[1..]) == GroupLen(s) - 1 && s[1..][GroupLen(s) - 1..] == s[GroupLen(s)..]
    ensures Groups(s[1..]) == Groups(s)
  {
    var k := Span(IsBlank, s);
    if k > 0 {
      TailSpan(IsBlank, s);
      assert s[1..][k - 1] == s[k];
      assert k + 1 < |s| ==> s[1..][k] == s[k + 1];
    }
  }

  lemma {:induction false} CopyGroup(t: string)
    requires 0 < Groups(t) < 4
    ensures Collapse(t) == t[..GroupLen(t)] + Collapse(t[GroupLen(t)..])
    decreases |t|
  {
    var n := GroupLen(t);
    assert Collapse(t) == [t[0]] + Collapse(t[1..]);
    if n > 1 {
      GroupTail(t);
      CopyGroup(t[1..]);
      assert t[..n] == [t[0]] + t[1..][..n - 1];
    }
  }

  lemma RunStep(t: string)
    requires GroupLen(t) > 0
    ensures var n, rest := GroupLen(t), t[GroupLen(t)..];
            && GroupsLen(t) == n + GroupsLen(rest)
            && t[GroupsLen(t)..] == rest[GroupsLen(rest)..]
            && t[..GroupsLen(t)] == t[..n] + rest[..GroupsLen(rest)]
  {
    CutTwice(t, GroupLen(t), GroupsLen(t[GroupLen(t)..]));
  }

  lemma {:induction false} CopyRun(t: string)
    requires Groups(t) < 4
    ensures Collapse(t) == t[..GroupsLen(t)] + Collapse(t[GroupsLen(t)..])
    decreases |t|
  {
    if GroupLen(t) > 0 {
      var rest := t[GroupLen(t)..];
      CopyGroup(t);
      CopyRun(rest);
      RunStep(t);
      Regroup(t[..GroupLen(t)], rest[..GroupsLen(rest)], Collapse(t[GroupsLen(t)..]));
    } else {
      assert t[..0] == "" && t[0..] == t;
    }
  }

  /** Spaces and tabs, then "\n" or "\r\n". */
  predicate IsBlankEnd(g: string) {
    && g != "" && g[|g| - 1] == '\n'
    && forall i | 0 <= i < |g| - 1 :: g[i] == ' ' || g[i] == '\t' || (i == |g| - 2 && g[i] == '\r')
  }

  predicate StartsBlankEnd(t: string) {
    exists n | 0 <= n <= |t| :: IsBlankEnd(t[..n])
  }

  lemma GroupIs(g: string, rest: string)
    requires IsBlankEnd(g)
    ensures GroupLen(g + rest) == |g|
  {
    var t := g + rest;
    var k := if |g| >= 2 && g[|g| - 2] == '\r' then |g| - 2 else |g| - 1;
    assert forall i | 0 <= i < |g| :: t[i] == g[i];
    assert All(IsBlank, t[..k]);
    SpanUnique(IsBlank, t, k);
  }

  lemma NoGroupIs(t: string)
    requires !StartsBlankEnd(t)
    ensures GroupLen(t) == 0
  {
    var n, k := GroupLen(t), Span(IsBlank, t);
    if n > 0 {
      var g := t[..n];
      forall i | 0 <= i < k ensures g[i] == ' ' || g[i] == '\t' {
        assert g[i] == t[..k][i];
      }
      assert IsBlankEnd(t[..n]);
    }
  }

  lemma {:induction false} GroupsAre(gs: seq<string>, rest: string)
    requires (forall i | 0 <= i < |gs| :: IsBlankEnd(gs[i])) && !StartsBlankEnd(rest)
    ensures Groups(Join(gs) + rest) == |gs| && GroupsLen(Join(gs) + rest) == |Join(gs)|
  {
    if gs == [] {
      NoGroupIs(rest);
      assert Join(gs) + rest == rest;
    } else {
      var t := Join(gs[1..]) + rest;
      GroupsAre(gs[1..], rest);
      GroupIs(gs[0], t);
      Regroup(gs[0], Join(gs[1..]), rest);
      assert (gs[0] + t)[|gs[0]|..] == t;
    }
  }

  predicate AnyReturn(gs: seq<string>) {
    exists i | 0 <= i < |gs| :: |gs[i]| >= 2 && gs[i][|gs[i]| - 2] == '\r'
  }

  lemma {:induction false} ReturnInJoin(gs: seq<string>)
    requires forall i | 0 <= i < |gs| :: IsBlankEnd(gs[i])
    ensures HasReturn(Join(gs)) <==> AnyReturn(gs)
  {
    if gs != [] {
      var g, x := gs[0], Join(gs[1..]);
      ReturnInJoin(gs[1..]);
      ReturnInAppend(g, x);
      assert AnyReturn(gs) <==> (|g| >= 2 && g[|g| - 2] == '\r') || AnyReturn(gs[1..]) by {
        assert forall i | 0 < i < |gs| :: gs[i] == gs[1..][i - 1];
      }
    }
  }

  lemma ReturnInAppend(g: string, x: string)
    requires IsBlankEnd(g)
    ensures HasReturn(g + x) <==> (|g| >= 2 && g[|g| - 2] == '\r') || HasReturn(x)
  {
    var t := g + x;
    if |g| >= 2 && g[|g| - 2] == '\r' {
      assert t[|g| - 2] == '\r' && t[|g| - 1] == '\n';
    }
    if i :| 0 <= i < |x| - 1 && x[i] == '\r' && x[i + 1] == '\n' {
      assert t[|g| + i] == '\r' && t[|g| + i + 1] == '\n';
    }
    if i :| 0 <= i < |t| - 1 && t[i] == '\r' && t[i + 1] == '\n' {
      if i < |g| - 1 {
        assert g[i] == '\r';
      } else {
        assert x[i - |g|] == '\r' && x[i - |g| + 1] == '\n';
      }
    }
  }

  /** Four or more blank line ends in a row become three bare ones, with returns if one of them has one;
      fewer stay. */
  lemma RunIsCollapsed(gs: seq<string>, rest: string)
    requires (forall i | 0 <= i < |gs| :: IsBlankEnd(gs[i])) && !StartsBlankEnd(rest)
    ensures Collapse(Join(gs) + rest)
         == (if |gs| < 4 then Join(gs) else if AnyReturn(gs) then "\r\n\r\n\r\n" else "\n\n\n") + Collapse(rest)
  {
    var t := Join(gs) + rest;
    GroupsAre(gs, rest);
    ReturnInJoin(gs);
    assert t[..|Join(gs)|] == Join(gs) && t[|Join(gs)|..] == rest;
    if |gs| < 4 {
      CopyRun(t);
    } else {
      GroupsLenIsPositive(t);
    }
  }

  /** A character at which no blank line end starts stays. */
  lemma OthersStay(t: string)
    requires t != "" && !StartsBlankEnd(t)
    ensures Collapse(t) == [t[0]] + Collapse(t[1..]) && Collapse("") == ""
  {
    NoGroupIs(t);
  }

  /** A text as its maximal runs of blank line ends, with their numbers, and the characters between. */
  datatype Piece = Run(text: string, ends: nat) | Char(c: char)

  function Pieces(t: string): seq<Piece>
    decreases |t|
  {
    if t == "" then []
    else if GroupLen(t) > 0 then
      GroupsLenIsPositive(t);
      [Run(t[..GroupsLen(t)], Groups(t))] + Pieces(t[GroupsLen(t)..])
    else [Char(t[0])] + Pieces(t[1..])
  }

  function Spell(ps: seq<Piece>): string {
    if ps == [] then "" else (if ps[0].Run? then ps[0].text else [ps[0].c]) + Spell(ps[1..])
  }

  function Shorten(p: Piece): Piece {
    if p.Run? && p.ends >= 4 then Run(Three(p.text), 3) else p
  }

  function ShortenAll(ps: seq<Piece>): seq<Piece> {
    if ps == [] then [] else [Shorten(ps[0])] + ShortenAll(ps[1..])
  }

  lemma FirstPiece(p: Piece, ps: seq<Piece>)
    ensures Spell([p] + ps) == (if p.Run? then p.text else [p.c]) + Spell(ps)
    ensures ShortenAll([p] + ps) == [Shorten(p)] + ShortenAll(ps)
    ensures Spell(ShortenAll([p] + ps))
         == (if Shorten(p).Run? then Shorten(p).text else [Shorten(p).c]) + Spell(ShortenAll(ps))
  {
    assert ([p] + ps)[1..] == ps;
    assert ([Shorten(p)] + ShortenAll(ps))[1..] == ShortenAll(ps);
  }

  /** The first piece of a text, and what follows it. */
  lemma PiecesHead(t: string) returns (p: Piece, n: nat)
    requires t != ""
    ensures 0 < n <= |t| && Pieces(t) == [p] + Pieces(t[n..])
    ensures (if p.Run? then p.text else [p.c]) == t[..n]
    ensures Collapse(t) == (if Shorten(p).Run? then Shorten(p).text else [Shorten(p).c]) + Collapse(t[n..])
  {
    GroupsLenIsPositive(t);
    if GroupLen(t) > 0 {
      p, n := Run(t[..GroupsLen(t)], Groups(t)), GroupsLen(t);
      if Groups(t) < 4 {
        CopyRun(t);
      }
    } else {
      p, n := Char(t[0]), 1;
    }
  }

  /** Main result on any text: exactly the runs of four or more blank line ends become three bare ones;
      every other character stays. */
  lemma {:induction false} CollapseActsOnRuns(t: string)
    ensures Spell(Pieces(t)) == t
    ensures Collapse(t) == Spell(ShortenAll(Pieces(t)))
    decreases |t|
  {
    if t != "" {
      var p, n := PiecesHead(t);
      CollapseActsOnRuns(t[n..]);
      FirstPiece(p, Pieces(t[n..]));
      Rejoin(t, n);
    }
  }
}
