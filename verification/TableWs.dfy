/**
  `markdown_table_ws` (engine/simplicio_compress_extra.py): in a table row the spaces next to a
  pipe shrink to one.
 */
module TableWs {
  import opened Substitution
  import opened Text
  import opened Wrappers

  predicate IsSp(c: char) { c == ' ' }

  predicate NotPipe(c: char) { c != '|' }

  /** ` {2,}(?=\|)` */
  function PadLen(s: string): nat {
    var k := Span(IsSp, s);
    if 2 <= k < |s| && s[k] == '|' then k else 0
  }

  function OneSpace(x: string): string { " " }

  function PadBefore(s: string): string {
    Sub(PadLen, OneSpace, s)
  }

  /** Substituting ` ` for `(?<=\|) {2,}`, where `prev` is the character before `s`. */
  function PadAfter(s: string, prev: char): string
    decreases |s|
  {
    var k := Span(IsSp, s);
    if s == "" then ""
    else if prev == '|' && k >= 2 then " " + PadAfter(s[k..], ' ')
    else [s[0]] + PadAfter(s[1..], s[0])
  }

  /** Two pipes with nothing but `sp` characters outside them. */
  predicate RowBy(sp: char -> bool, c: string) {
    exists i, j | 0 <= i < |c| && i < j < |c| ::
      c[i] == '|' && c[j] == '|' && All(sp, c[..i]) && All(sp, c[j + 1..])
  }

  /** `^\s*\|.*\|\s*$`, which implies the two pipes the source counts. */
  predicate IsRow(c: string) {
    RowBy(IsSpace, c)
  }

  function TightenRow(c: string): string {
    PadAfter(PadBefore(c), '\0')
  }

  function Tighten(c: string): string {
    if IsRow(c) then TightenRow(c) else c
  }

  // ---- cells ------------------------------------------------------------------------------

  /** `c.split("|")` */
  function Cells(c: string): (cs: seq<string>)
    ensures cs != []
    decreases |c|
  {
    var k := Span(NotPipe, c);
    if k == |c| then [c] else [c[..k]] + Cells(c[k + 1..])
  }

  function JoinCells(cs: seq<string>): string {
    if cs == [] then "" else if |cs| == 1 then cs[0] else cs[0] + ("|" + JoinCells(cs[1..]))
  }

  function Lead(x: string): (n: nat)
    ensures n <= |x|
  {
    Span(IsSp, x)
  }

  /** The spaces that end the first `n` characters. */
  function TrailFrom(x: string, n: nat): (k: nat)
    requires n <= |x|
    ensures k <= n && forall i | n - k <= i < n :: x[i] == ' '
    ensures k < n ==> x[n - k - 1] != ' '
  {
    if n == 0 || x[n - 1] != ' ' then 0 else 1 + TrailFrom(x, n - 1)
  }

  function Trail(x: string): (n: nat)
    ensures n <= |x|
  {
    TrailFrom(x, |x|)
  }

  function ClipHead(x: string): string {
    if Lead(x) >= 2 then x[Lead(x) - 1..] else x
  }

  function ClipTail(x: string): string {
    if Trail(x) >= 2 then x[..|x| - Trail(x) + 1] else x
  }

  function ClipTails(cs: seq<string>): seq<string> {
    if |cs| <= 1 then cs else [ClipTail(cs[0])] + ClipTails(cs[1..])
  }

  function ClipHeads(cs: seq<string>): seq<string> {
    if cs == [] then [] else [cs[0]] + ClipAllHeads(cs[1..])
  }

  function ClipAllHeads(cs: seq<string>): (r: seq<string>)
    ensures |r| == |cs|
  {
    if cs == [] then [] else [ClipHead(cs[0])] + ClipAllHeads(cs[1..])
  }

  predicate PipeFree(x: string) {
    All(NotPipe, x)
  }

  lemma {:induction false} CellsOfAppend(x: string, rest: string)
    requires PipeFree(x)
    ensures Cells(x + ("|" + rest)) == [x] + Cells(rest)
  {
    var c := x + ("|" + rest);
    assert c[..|x|] == x && c[|x|] == '|' && c[|x| + 1..] == rest;
    SpanUnique(NotPipe, c, |x|);
  }

  lemma CellsOfOne(x: string)
    requires PipeFree(x)
    ensures Cells(x) == [x]
  {
    assert x[..|x|] == x;
    SpanUnique(NotPipe, x, |x|);
  }

  lemma {:induction false} JoinOfCells(c: string)
    ensures JoinCells(Cells(c)) == c
    ensures forall x | x in Cells(c) :: PipeFree(x)
    decreases |c|
  {
    var k := Span(NotPipe, c);
    if k < |c| {
      JoinOfCells(c[k + 1..]);
      assert Cells(c)[1..] == Cells(c[k + 1..]);
      RejoinAt(c, k);
    } else {
      assert c[..k] == c;
    }
  }

  // ---- the two substitutions, cell by cell ------------------------------------------------

  lemma PadAtPipe(rest: string)
    ensures PadBefore("|" + rest) == "|" + PadBefore(rest)
  {
    assert ("|" + rest)[1..] == rest;
    SpanUnique(IsSp, "|" + rest, 0);
  }

  /** The spaces at the head of a cell, seen in the row. */
  lemma LeadInRow(x: string, rest: string)
    requires PipeFree(x)
    ensures Lead(x + ("|" + rest)) == Lead(x)
    ensures var s := x + ("|" + rest); s[Lead(x)] == '|' <==> Lead(x) == |x|
  {
    var s, k := x + ("|" + rest), Lead(x);
    assert s[..k] == x[..k];
    assert if k < |x| then s[k] == x[k] && NotPipe(x[k]) else s[k] == '|';
    SpanUnique(IsSp, s, k);
  }

  /** A cell of spaces only. */
  lemma BlankCellBefore(x: string, rest: string)
    requires x != "" && Lead(x) == |x|
    requires Lead(x + ("|" + rest)) == |x|
    ensures PadBefore(x + ("|" + rest)) == " " + ("|" + PadBefore(rest))
    ensures ClipTail(x) == " "
  {
    var s := x + ("|" + rest);
    SpacesTrail(x);
    PadAtPipe(rest);
    assert s[|x|..] == "|" + rest && s[|x|] == '|';
    assert x[..1] == " ";
    assert s[0] == x[..|x|][0] == ' ';
    if |x| == 1 {
      assert x == " ";
    }
  }

  lemma NoPadHere(x: string, tail: string)
    requires x != "" && Lead(x) < |x| && Lead(x + tail) == Lead(x) && (x + tail)[Lead(x)] != '|'
    ensures PadBefore(x + tail) == [x[0]] + PadBefore(x[1..] + tail)
  {
    assert (x + tail)[0] == x[0] && (x + tail)[1..] == x[1..] + tail;
  }

  /** Before a pipe, a run of spaces ends the cell. */
  lemma {:induction false} BeforePipe(x: string, rest: string)
    requires PipeFree(x)
    ensures PadBefore(x + ("|" + rest)) == ClipTail(x) + ("|" + PadBefore(rest))
    decreases |x|
  {
    var s := x + ("|" + rest);
    if x == "" {
      PadAtPipe(rest);
      assert s == "|" + rest;
    } else {
      LeadInRow(x, rest);
      if Lead(x) == |x| {
        BlankCellBefore(x, rest);
      } else {
        NoPadHere(x, "|" + rest);
        BeforePipe(x[1..], rest);
        ClipTailOfTail(x);
        Regroup([x[0]], ClipTail(x[1..]), "|" + PadBefore(rest));
      }
    }
  }

  lemma SpacesTrail(x: string)
    requires Lead(x) == |x|
    ensures Trail(x) == |x|
  {
    assert forall i | 0 <= i < |x| :: x[..|x|][i] == x[i];
  }

  lemma TrailOfTail(x: string)
    requires x != "" && Lead(x) < |x|
    ensures Trail(x) < |x| && Trail(x[1..]) == Trail(x)
  {
    var k, y := Trail(x), x[1..];
    assert x[Lead(x)] != ' ';
    assert forall i | 0 <= i < |y| :: y[i] == x[i + 1];
  }

  lemma ClipTailOfTail(x: string)
    requires x != "" && Lead(x) < |x|
    ensures ClipTail(x) == [x[0]] + ClipTail(x[1..])
  {
    TrailOfTail(x);
  }

  lemma {:induction false} LastCellBefore(x: string)
    requires PipeFree(x)
    ensures PadBefore(x) == x
  {
    if x != "" {
      var k := Lead(x);
      assert k < |x| ==> NotPipe(x[k]);
      LastCellBefore(x[1..]);
    }
  }

  /** After a pipe, a run of spaces opens the cell. */
  lemma {:induction false} InsideCell(x: string, prev: char, rest: string)
    requires PipeFree(x) && prev != '|'
    ensures PadAfter(x + ("|" + rest), prev) == x + ("|" + PadAfter(rest, '|'))
    ensures PadAfter(x, prev) == x
    decreases |x|
  {
    var s := x + ("|" + rest);
    if x == "" {
      assert s == "|" + rest && s[1..] == rest;
    } else {
      assert s[0] == x[0] && s[1..] == x[1..] + ("|" + rest);
      assert NotPipe(x[0]);
      InsideCell(x[1..], x[0], rest);
    }
  }

  /** A cell that opens with two or more spaces keeps the last of them. */
  lemma PaddedAfterPipe(x: string, tail: string)
    requires PipeFree(x) && Lead(x) >= 2
    requires tail == "" || tail[0] == '|'
    requires Lead(x + tail) == Lead(x)
    ensures PadAfter(x + tail, '|') == " " + PadAfter(x[Lead(x)..] + tail, ' ')
    ensures ClipHead(x) == " " + x[Lead(x)..]
  {
    var k := Lead(x);
    assert (x + tail)[k..] == x[k..] + tail;
    assert x[..k][k - 1] == ' ';
    assert x[k - 1..] == " " + x[k..];
  }

  lemma UnpaddedAfterPipe(x: string, tail: string)
    requires x != "" && Lead(x + tail) < 2
    ensures PadAfter(x + tail, '|') == [x[0]] + PadAfter(x[1..] + tail, x[0])
  {
    assert (x + tail)[0] == x[0] && (x + tail)[1..] == x[1..] + tail;
  }

  lemma PipeAfterPipe(rest: string)
    ensures PadAfter("|" + rest, '|') == "|" + PadAfter(rest, '|')
  {
    SpanUnique(IsSp, "|" + rest, 0);
    assert ("|" + rest)[1..] == rest;
  }

  lemma AfterPipe(x: string, rest: string)
    requires PipeFree(x)
    ensures PadAfter(x + ("|" + rest), '|') == ClipHead(x) + ("|" + PadAfter(rest, '|'))
  {
    var k, tail, out := Lead(x), "|" + rest, "|" + PadAfter(rest, '|');
    LeadInRow(x, rest);
    if k >= 2 {
      PaddedAfterPipe(x, tail);
      InsideCell(x[k..], ' ', rest);
      Regroup(" ", x[k..], out);
    } else if x == "" {
      PipeAfterPipe(rest);
      assert x + tail == tail && ClipHead(x) + out == out;
    } else {
      UnpaddedCell(x, rest);
    }
  }

  lemma UnpaddedCell(x: string, rest: string)
    requires PipeFree(x) && x != "" && Lead(x + ("|" + rest)) < 2
    ensures PadAfter(x + ("|" + rest), '|') == x + ("|" + PadAfter(rest, '|'))
  {
    UnpaddedAfterPipe(x, "|" + rest);
    assert NotPipe(x[0]);
    InsideCell(x[1..], x[0], rest);
    Regroup([x[0]], x[1..], "|" + PadAfter(rest, '|'));
    Rejoin(x, 1);
  }

  lemma LastCellAfter(x: string)
    requires PipeFree(x)
    ensures PadAfter(x, '|') == ClipHead(x)
  {
    var k := Lead(x);
    if k >= 2 {
      assert x + "" == x && x[k..] + "" == x[k..];
      PaddedAfterPipe(x, "");
      InsideCell(x[k..], ' ', "");
    } else if x != "" {
      assert NotPipe(x[0]);
      InsideCell(x[1..], x[0], "");
    }
  }

  lemma ClipIsPipeFree(x: string)
    requires PipeFree(x)
    ensures PipeFree(ClipHead(x)) && PipeFree(ClipTail(x))
  {
  }

  /** A row is one cell, or a first cell, a pipe and the other cells. */
  lemma FirstCell(c: string) returns (one: bool, x: string, rest: string)
    ensures PipeFree(x)
    ensures one ==> c == x && Cells(c) == [x]
    ensures !one ==> c == x + ("|" + rest) && Cells(c) == [x] + Cells(rest) && |rest| < |c|
  {
    var k := Span(NotPipe, c);
    one, x, rest := k == |c|, c[..k], if k < |c| then c[k + 1..] else "";
    if !one {
      RejoinAt(c, k);
    }
  }

  lemma {:induction false} CellsBefore(c: string)
    ensures Cells(PadBefore(c)) == ClipTails(Cells(c))
    decreases |c|
  {
    var one, x, rest := FirstCell(c);
    if one {
      LastCellBefore(c);
    } else {
      BeforePipe(x, rest);
      ClipIsPipeFree(x);
      CellsOfAppend(ClipTail(x), PadBefore(rest));
      CellsBefore(rest);
      assert Cells(c)[1..] == Cells(rest);
    }
  }

  lemma {:induction false} CellsAfterPipe(c: string)
    ensures Cells(PadAfter(c, '|')) == ClipAllHeads(Cells(c))
    decreases |c|
  {
    var one, x, rest := FirstCell(c);
    ClipIsPipeFree(x);
    if one {
      LastCellAfter(x);
      CellsOfOne(ClipHead(x));
    } else {
      AfterPipe(x, rest);
      CellsOfAppend(ClipHead(x), PadAfter(rest, '|'));
      CellsAfterPipe(rest);
      assert Cells(c)[1..] == Cells(rest);
    }
  }

  lemma CellsAfter(c: string)
    ensures Cells(PadAfter(c, '\0')) == ClipHeads(Cells(c))
  {
    var one, x, rest := FirstCell(c);
    InsideCell(x, '\0', rest);
    if !one {
      CellsOfAppend(x, PadAfter(rest, '|'));
      CellsAfterPipe(rest);
      assert Cells(c)[1..] == Cells(rest);
    }
  }

  // ---- what tightening keeps --------------------------------------------------------------

  /** `cell.strip(" ")` */
  function Trim(x: string): string {
    if Lead(x) + Trail(x) >= |x| then "" else x[Lead(x)..|x| - Trail(x)]
  }

  function TrimAll(cs: seq<string>): (r: seq<string>)
    ensures |r| == |cs| && forall i | 0 <= i < |cs| :: r[i] == Trim(cs[i])
  {
    if cs == [] then [] else [Trim(cs[0])] + TrimAll(cs[1..])
  }

  function TightCell(x: string, first: bool, last: bool): string {
    var y := if last then x else ClipTail(x);
    if first then y else ClipHead(y)
  }

  lemma {:induction false} ClipTailsAt(cs: seq<string>)
    ensures |ClipTails(cs)| == |cs|
    ensures forall i | 0 <= i < |cs| :: ClipTails(cs)[i] == if i == |cs| - 1 then cs[i] else ClipTail(cs[i])
  {
    if |cs| > 1 {
      ClipTailsAt(cs[1..]);
    }
  }

  lemma {:induction false} ClipAllHeadsAt(cs: seq<string>)
    ensures forall i | 0 <= i < |cs| :: ClipAllHeads(cs)[i] == ClipHead(cs[i])
  {
    if cs != [] {
      ClipAllHeadsAt(cs[1..]);
    }
  }

  /** Main result on the two substitutions: cell by cell, every side next to a pipe is clipped. */
  lemma TightenedCells(c: string)
    ensures TightCells(Cells(c), Cells(TightenRow(c)))
  {
    var cs := Cells(c);
    CellsBefore(c);
    CellsAfter(PadBefore(c));
    ClipTailsAt(cs);
    var ts := ClipTails(cs);
    ClipAllHeadsAt(ts[1..]);
  }

  lemma LeadIs(x: string, n: nat)
    requires n <= |x| && (forall i | 0 <= i < n :: x[i] == ' ') && (n < |x| ==> x[n] != ' ')
    ensures Lead(x) == n
  {
    assert forall i | 0 <= i < n :: x[..n][i] == x[i];
    SpanUnique(IsSp, x, n);
  }

  lemma LeadShape(x: string)
    ensures forall i | 0 <= i < Lead(x) :: x[i] == ' '
    ensures Lead(x) < |x| ==> x[Lead(x)] != ' '
  {
    assert forall i | 0 <= i < Lead(x) :: x[..Lead(x)][i] == x[i];
  }

  /** Clipping a side takes spaces, all but one, and nothing else. */
  lemma ClipHeadShape(x: string)
    ensures var y := ClipHead(x);
            && Lead(y) == (if Lead(x) < 2 then Lead(x) else 1)
            && y[Lead(y)..] == x[Lead(x)..]
            && (Lead(x) < |x| ==> Trail(y) == Trail(x))
            && |y| <= |x|
  {
    var y := ClipHead(x);
    LeadShape(x);
    LeadIs(y, if Lead(x) < 2 then Lead(x) else 1);
    if Lead(x) >= 2 {
      assert forall i | 0 <= i < |y| :: y[i] == x[i + (|x| - |y|)];
    }
  }

  lemma ClipTailShape(x: string)
    ensures var y := ClipTail(x);
            && Trail(y) == (if Trail(x) < 2 then Trail(x) else 1)
            && y[..|y| - Trail(y)] == x[..|x| - Trail(x)]
            && (Lead(x) < |x| ==> Lead(y) == Lead(x) && Lead(y) < |y|)
            && (Lead(x) == |x| ==> Lead(y) == |y|)
            && |y| <= |x|
  {
    var y := ClipTail(x);
    LeadShape(x);
    assert forall i | 0 <= i < |y| :: y[i] == x[i];
    if Lead(x) == |x| {
      LeadIs(y, |y|);
    } else {
      assert Lead(x) < |x| - Trail(x);
      LeadIs(y, Lead(x));
    }
  }

  /** Clipped on both sides. */
  lemma ClippedTwice(x: string)
    ensures var y := ClipHead(ClipTail(x)); Trail(y) < 2 && Lead(y) < 2
  {
    var z := ClipTail(x);
    var y := ClipHead(z);
    ClipTailShape(x);
    ClipHeadShape(z);
    TrimByParts(y);
    TrimByParts(z);
  }

  lemma ClipBounds(x: string)
    ensures Trail(ClipTail(x)) < 2 && |ClipTail(x)| <= |x|
    ensures Lead(ClipHead(x)) < 2 && |ClipHead(x)| <= |x|
  {
    ClipTailShape(x);
    ClipHeadShape(x);
  }

  lemma TightTrims(x: string, first: bool, last: bool)
    ensures Trim(TightCell(x, first, last)) == Trim(x)
  {
    var z := if last then x else ClipTail(x);
    if !last {
      ClippedTailTrims(x);
    }
    if !first {
      ClippedHeadTrims(z);
    }
  }

  lemma TightBounds(x: string, first: bool, last: bool)
    ensures var y := TightCell(x, first, last);
            && |y| <= |x| && (!last ==> Trail(y) < 2) && (!first ==> Lead(y) < 2)
  {
    var z := if last then x else ClipTail(x);
    ClippedTwice(x);
    ClipBounds(x);
    ClipBounds(z);
  }

  /** Clipping changes no trimmed cell, leaves at most one space next to a pipe, and settles. */
  lemma TightCellShape(x: string, first: bool, last: bool)
    ensures var y := TightCell(x, first, last);
            && Trim(y) == Trim(x) && |y| <= |x|
            && (!last ==> Trail(y) < 2) && (!first ==> Lead(y) < 2)
            && TightCell(y, first, last) == y
  {
    TightTrims(x, first, last);
    TightBounds(x, first, last);
  }

  lemma TrimByParts(x: string)
    ensures Lead(x) == |x| ==> Trail(x) == |x| && Trim(x) == ""
    ensures Lead(x) < |x| ==> Lead(x) + Trail(x) < |x|
  {
    LeadShape(x);
    if Lead(x) == |x| {
      SpacesTrail(x);
    }
  }

  lemma ClippedTailTrims(x: string)
    ensures Trim(ClipTail(x)) == Trim(x)
  {
    var y := ClipTail(x);
    ClipTailShape(x);
    TrimByParts(x);
    TrimByParts(y);
    if Lead(x) < |x| {
      assert Trim(y) == y[..|y| - Trail(y)][Lead(y)..];
      assert Trim(x) == x[..|x| - Trail(x)][Lead(x)..];
    }
  }

  lemma ClippedHeadTrims(x: string)
    ensures Trim(ClipHead(x)) == Trim(x)
  {
    var y := ClipHead(x);
    ClipHeadShape(x);
    TrimByParts(x);
    TrimByParts(y);
    if Lead(x) < |x| {
      var n := |x| - Lead(x) - Trail(x);
      assert |y| - Lead(y) == |x| - Lead(x);
      assert Trim(y) == y[Lead(y)..][..n];
      assert Trim(x) == x[Lead(x)..][..n];
    } else {
      assert Lead(y) == |y|;
    }
  }

  /** A text between spaces. */
  lemma SidesAre(a: nat, x: string, b: nat)
    requires x != "" && x[0] != ' ' && x[|x| - 1] != ' '
    ensures var c := Repeat(' ', a) + x + Repeat(' ', b); Lead(c) == a && Trail(c) == b
  {
    var c := Repeat(' ', a) + x + Repeat(' ', b);
    LeadIs(c, a);
    assert c[|c| - b - 1] == x[|x| - 1];
    assert forall i | |c| - b <= i < |c| :: c[i] == ' ';
    TrailIs(c, |c|, b);
  }

  lemma {:induction false} TrailIs(x: string, n: nat, k: nat)
    requires k <= n <= |x| && (forall i | n - k <= i < n :: x[i] == ' ') && (k < n ==> x[n - k - 1] != ' ')
    ensures TrailFrom(x, n) == k
  {
    if k > 0 {
      TrailIs(x, n - 1, k - 1);
    }
  }

  function AtMostOne(n: nat): nat {
    if n >= 1 then 1 else 0
  }

  /** Of the spaces of a cell next to a pipe at most one stays; those at the ends of the row stay. */
  lemma CellIsTight(a: nat, x: string, b: nat, first: bool, last: bool)
    requires x != "" && x[0] != ' ' && x[|x| - 1] != ' '
    ensures TightCell(Repeat(' ', a) + x + Repeat(' ', b), first, last)
         == Repeat(' ', if first then a else AtMostOne(a)) + x + Repeat(' ', if last then b else AtMostOne(b))
  {
    var m := if last then b else AtMostOne(b);
    TailIsClipped(a, x, b);
    HeadIsClipped(a, x, m);
  }

  lemma TailIsClipped(a: nat, x: string, b: nat)
    requires x != "" && x[0] != ' ' && x[|x| - 1] != ' '
    ensures ClipTail(Repeat(' ', a) + x + Repeat(' ', b)) == Repeat(' ', a) + x + Repeat(' ', AtMostOne(b))
  {
    SidesAre(a, x, b);
    if b >= 2 {
      TakeInside(Repeat(' ', a) + x, Repeat(' ', b), 1);
      assert Repeat(' ', b)[..1] == Repeat(' ', 1);
    }
  }

  lemma TakeInside(x: string, y: string, n: nat)
    requires n <= |y|
    ensures (x + y)[..|x| + n] == x + y[..n]
  {
  }

  lemma DropInside(x: string, y: string, n: nat)
    requires n <= |x|
    ensures (x + y)[n..] == x[n..] + y
  {
  }

  lemma HeadIsClipped(a: nat, x: string, b: nat)
    requires x != "" && x[0] != ' ' && x[|x| - 1] != ' '
    ensures ClipHead(Repeat(' ', a) + x + Repeat(' ', b)) == Repeat(' ', AtMostOne(a)) + x + Repeat(' ', b)
  {
    var c, pad, y := Repeat(' ', a) + x + Repeat(' ', b), Repeat(' ', a), x + Repeat(' ', b);
    SidesAre(a, x, b);
    Regroup(pad, x, Repeat(' ', b));
    if a >= 2 {
      DropInside(pad, y, a - 1);
      assert pad[a - 1..] == Repeat(' ', 1);
      Regroup(Repeat(' ', 1), x, Repeat(' ', b));
    }
  }

  /** So for a cell of spaces only. */
  lemma BlankCellIsTight(n: nat, first: bool, last: bool)
    ensures TightCell(Repeat(' ', n), first, last) == Repeat(' ', if first && last then n else AtMostOne(n))
  {
    var x := Repeat(' ', n);
    LeadIs(x, n);
    TrailIs(x, n, n);
    if n >= 2 {
      assert x[..1] == x[n - 1..] == Repeat(' ', 1);
      LeadIs(Repeat(' ', 1), 1);
    }
  }

  /** White space, a pipe, anything, a pipe, white space. */
  predicate HasRowForm(c: string, a: string, x: string, b: string) {
    c == a + ("|" + (x + ("|" + b))) && All(IsSpace, a) && All(IsSpace, b)
  }

  lemma CutAtPipes(c: string, i: nat, j: nat)
    requires i < j < |c| && c[i] == '|' && c[j] == '|'
    ensures c == c[..i] + ("|" + (c[i + 1..][..j - i - 1] + ("|" + c[j + 1..])))
  {
    var y, k := c[i + 1..], j - i - 1;
    RejoinAt(c, i);
    RejoinAt(y, k);
    assert y[k] == '|' && y[k + 1..] == c[j + 1..];
  }

  lemma RowPipes(c: string) returns (i: nat, j: nat)
    requires IsRow(c)
    ensures i < j < |c| && c[i] == '|' && c[j] == '|' && All(IsSpace, c[..i]) && All(IsSpace, c[j + 1..])
  {
    i, j :| 0 <= i < |c| && i < j < |c| && c[i] == '|' && c[j] == '|'
            && All(IsSpace, c[..i]) && All(IsSpace, c[j + 1..]);
  }

  lemma PartsOfRow(c: string) returns (a: string, x: string, b: string)
    requires IsRow(c)
    ensures HasRowForm(c, a, x, b)
  {
    var i, j := RowPipes(c);
    CutAtPipes(c, i, j);
    a, x, b := c[..i], c[i + 1..][..j - i - 1], c[j + 1..];
  }

  lemma RowOfForm(c: string, a: string, x: string, b: string)
    requires HasRowForm(c, a, x, b)
    ensures IsRow(c)
  {
    var i, j := |a|, |a| + 1 + |x|;
    assert c[..i] == a && c[j + 1..] == b;
    assert c[i] == '|' && c[j] == '|';
  }

  /** Main result: in a row the spaces next to the pipes shrink to one, cell by cell; what is no row stays. */
  lemma RowsAreTightened(c: string)
    ensures if exists a, x, b :: HasRowForm(c, a, x, b) then TightCells(Cells(c), Cells(Tighten(c)))
            else Tighten(c) == c
  {
    if a, x, b :| HasRowForm(c, a, x, b) {
      RowOfForm(c, a, x, b);
      TightenedCells(c);
    } else if IsRow(c) {
      var a, x, b := PartsOfRow(c);
    }
  }

  // ---- the row test -----------------------------------------------------------------------

  /** The last pipe of a row, and the cell after it. */
  lemma {:induction false} LastPipe(c: string) returns (front: string, last: string)
    requires |Cells(c)| >= 2
    ensures c == front + ("|" + last) && last == Cells(c)[|Cells(c)| - 1]
    ensures |Cells(c)| >= 3 ==> |front| > |Cells(c)[0]|
    decreases |c|
  {
    var one, x, rest := FirstCell(c);
    if |Cells(rest)| == 1 {
      var one', x', rest' := FirstCell(rest);
      front, last := x, rest;
    } else {
      var f;
      f, last := LastPipe(rest);
      front := x + ("|" + f);
      Regroup("|", f, "|" + last);
      Regroup(x, "|" + f, "|" + last);
    }
  }

  lemma {:induction false} FirstPipe(c: string, j: nat)
    requires j < |c| && c[j] == '|'
    ensures Span(NotPipe, c) <= j
  {
    if j > 0 {
      assert c[1..][j - 1] == '|';
      FirstPipe(c[1..], j - 1);
    }
  }

  lemma CellsFrom(c: string, k: nat)
    requires k == Span(NotPipe, c) < |c|
    ensures var cs, rest := Cells(c), Cells(c[k + 1..]); |cs| == 1 + |rest| && cs[|cs| - 1] == rest[|rest| - 1]
  {
    assert Cells(c) == [c[..k]] + Cells(c[k + 1..]);
  }

  lemma {:induction false} CellAfterPipe(c: string, j: nat)
    requires j < |c| && c[j] == '|' && PipeFree(c[j + 1..])
    ensures |Cells(c)| >= 2 && Cells(c)[|Cells(c)| - 1] == c[j + 1..]
    decreases |c|
  {
    var k := Span(NotPipe, c);
    FirstPipe(c, j);
    CellsFrom(c, k);
    var rest := c[k + 1..];
    if k < j {
      assert rest[j - k - 1] == '|' && rest[j - k..] == c[j + 1..];
      CellAfterPipe(rest, j - k - 1);
    } else {
      CellsOfOne(rest);
    }
  }

  predicate HasRowCells(sp: char -> bool, cs: seq<string>) {
    |cs| >= 3 && All(sp, cs[0]) && All(sp, cs[|cs| - 1])
  }

  lemma NoPipeInSpace(sp: char -> bool, x: string)
    requires !sp('|') && All(sp, x)
    ensures PipeFree(x)
  {
    forall i | 0 <= i < |x| ensures NotPipe(x[i]) {
      assert sp(x[i]);
    }
  }

  lemma CellsOfRow(sp: char -> bool, c: string, i: nat, j: nat)
    requires !sp('|')
    requires i < j < |c| && c[i] == '|' && c[j] == '|'
    requires All(sp, c[..i]) && All(sp, c[j + 1..])
    ensures HasRowCells(sp, Cells(c))
  {
    NoPipeInSpace(sp, c[..i]);
    NoPipeInSpace(sp, c[j + 1..]);
    SpanUnique(NotPipe, c, i);
    var rest := c[i + 1..];
    assert rest[j - i - 1] == '|' && rest[j - i..] == c[j + 1..];
    CellAfterPipe(rest, j - i - 1);
    assert Cells(c) == [c[..i]] + Cells(rest);
  }

  lemma RowParts(c: string) returns (x: string, rest: string, front: string, last: string)
    requires |Cells(c)| >= 3
    ensures c == x + ("|" + rest) && c == front + ("|" + last) && |x| < |front|
    ensures x == Cells(c)[0] && last == Cells(c)[|Cells(c)| - 1]
  {
    var one;
    one, x, rest := FirstCell(c);
    front, last := LastPipe(c);
  }

  lemma RowOfCells(sp: char -> bool, c: string)
    requires HasRowCells(sp, Cells(c))
    ensures RowBy(sp, c)
  {
    var x, rest, front, last := RowParts(c);
    RowOfParts(sp, c, x, rest, front, last);
  }

  lemma RowOfParts(sp: char -> bool, c: string, x: string, rest: string, front: string, last: string)
    requires c == x + ("|" + rest) && c == front + ("|" + last) && |x| < |front|
    requires All(sp, x) && All(sp, last)
    ensures RowBy(sp, c)
  {
    var i, j := |x|, |front|;
    assert c[..i] == x && c[i] == '|';
    assert c[j + 1..] == last && c[j] == '|';
  }

  lemma RowHasCells(sp: char -> bool, c: string)
    requires !sp('|')
    ensures RowBy(sp, c) <==> HasRowCells(sp, Cells(c))
  {
    if RowBy(sp, c) {
      var i, j :| 0 <= i < |c| && i < j < |c| &&
        c[i] == '|' && c[j] == '|' && All(sp, c[..i]) && All(sp, c[j + 1..]);
      CellsOfRow(sp, c, i, j);
    }
    if HasRowCells(sp, Cells(c)) {
      RowOfCells(sp, c);
    }
  }

  lemma {:induction false} JoinIsShorter(cs: seq<string>, ds: seq<string>)
    requires |cs| == |ds| && forall i | 0 <= i < |cs| :: |ds[i]| <= |cs[i]|
    ensures |JoinCells(ds)| <= |JoinCells(cs)|
  {
    if |cs| > 1 {
      JoinIsShorter(cs[1..], ds[1..]);
    }
  }

  predicate TightNextToPipes(c: string) {
    var cs := Cells(c);
    forall i | 0 <= i < |cs| :: (i < |cs| - 1 ==> Trail(cs[i]) < 2) && (i > 0 ==> Lead(cs[i]) < 2)
  }

  /** `ds` is `cs` with every side next to a pipe clipped. */
  predicate TightCells(cs: seq<string>, ds: seq<string>) {
    |ds| == |cs| && forall i | 0 <= i < |cs| :: ds[i] == TightCell(cs[i], i == 0, i == |cs| - 1)
  }

  lemma TightCellsTrim(cs: seq<string>, ds: seq<string>)
    requires TightCells(cs, ds)
    ensures TrimAll(ds) == TrimAll(cs) && |JoinCells(ds)| <= |JoinCells(cs)|
  {
    forall i | 0 <= i < |cs| ensures Trim(ds[i]) == Trim(cs[i]) && |ds[i]| <= |cs[i]| {
      TightCellShape(cs[i], i == 0, i == |cs| - 1);
    }
    JoinIsShorter(cs, ds);
    assert TrimAll(ds) == TrimAll(cs);
  }

  lemma TightCellsAreTight(cs: seq<string>, ds: seq<string>)
    requires TightCells(cs, ds)
    ensures forall i | 0 <= i < |cs| :: (i < |cs| - 1 ==> Trail(ds[i]) < 2) && (i > 0 ==> Lead(ds[i]) < 2)
  {
    forall i | 0 <= i < |cs|
      ensures (i < |cs| - 1 ==> Trail(ds[i]) < 2) && (i > 0 ==> Lead(ds[i]) < 2)
    {
      TightCellShape(cs[i], i == 0, i == |cs| - 1);
    }
  }

  lemma TightCellsSettle(cs: seq<string>, ds: seq<string>, es: seq<string>)
    requires TightCells(cs, ds) && TightCells(ds, es)
    ensures es == ds
  {
    forall i | 0 <= i < |cs| ensures es[i] == ds[i] {
      TightCellShape(cs[i], i == 0, i == |cs| - 1);
    }
  }

  lemma TightCellIsPart(sp: char -> bool, x: string, first: bool, last: bool)
    requires All(sp, x)
    ensures All(sp, TightCell(x, first, last))
  {
    var z := if last then x else ClipTail(x);
    assert forall i | 0 <= i < |z| :: z[i] == x[i];
    var y := if first then z else ClipHead(z);
    assert forall i | 0 <= i < |y| :: y[i] == z[i + (|z| - |y|)];
  }

  lemma TightRowCells(sp: char -> bool, cs: seq<string>, ds: seq<string>)
    requires TightCells(cs, ds) && HasRowCells(sp, cs)
    ensures HasRowCells(sp, ds)
  {
    TightCellIsPart(sp, cs[0], true, false);
    TightCellIsPart(sp, cs[|cs| - 1], false, true);
  }

  lemma RowStaysRow(sp: char -> bool, c: string)
    requires !sp('|') && RowBy(sp, c)
    ensures RowBy(sp, TightenRow(c))
  {
    TightenedCells(c);
    RowHasCells(sp, c);
    TightRowCells(sp, Cells(c), Cells(TightenRow(c)));
    RowHasCells(sp, TightenRow(c));
  }

  lemma TightRowShape(c: string)
    ensures TrimAll(Cells(TightenRow(c))) == TrimAll(Cells(c))
    ensures TightNextToPipes(TightenRow(c))
    ensures |TightenRow(c)| <= |c|
  {
    TightenedCells(c);
    TightCellsTrim(Cells(c), Cells(TightenRow(c)));
    TightCellsAreTight(Cells(c), Cells(TightenRow(c)));
    JoinOfCells(c);
    JoinOfCells(TightenRow(c));
  }

  lemma TightRowSettles(c: string)
    ensures TightenRow(TightenRow(c)) == TightenRow(c)
  {
    var d := TightenRow(c);
    TightenedCells(c);
    TightenedCells(d);
    TightCellsSettle(Cells(c), Cells(d), Cells(TightenRow(d)));
    JoinOfCells(d);
    JoinOfCells(TightenRow(d));
  }

  /** Main result: the cells stay what they are up to the spaces around them, the row stays a row
      with at most one space next to a pipe, the text gets no longer, a second pass does nothing. */
  lemma TightenKeepsTheTable(c: string)
    ensures TrimAll(Cells(Tighten(c))) == TrimAll(Cells(c))
    ensures IsRow(Tighten(c)) <==> IsRow(c)
    ensures IsRow(c) ==> TightNextToPipes(Tighten(c))
    ensures |Tighten(c)| <= |c|
    ensures Tighten(Tighten(c)) == Tighten(c)
  {
    if IsRow(c) {
      RowStaysRow(IsSpace, c);
      TightRowShape(c);
      TightRowSettles(c);
    }
  }

  // ---- on texts ---------------------------------------------------------------------------

  /** Each line with `f` applied to its content and the same end of line. */
  function MapLine(f: string -> string, l: string): string {
    f(Content(l)) + l[|Content(l)|..]
  }

  function MapLines(f: string -> string, ls: seq<string>): (r: seq<string>)
    ensures |r| == |ls| && forall i | 0 <= i < |ls| :: r[i] == MapLine(f, ls[i])
  {
    if ls == [] then [] else [MapLine(f, ls[0])] + MapLines(f, ls[1..])
  }

  function TableText(t: string): string {
    Join(MapLines(Tighten, SplitLines(t)))
  }

  lemma MapOfEnd(a: string, e: string)
    requires NoBreaks(a) && (e == "" || e == "\n" || e == "\r" || e == "\r\n")
    ensures MapLine(Tighten, a + e) == Tighten(a) + e
  {
    EolOfEnd(a, e);
    assert (a + e)[|a|..] == e;
  }

  /** Line by line: a line is tightened in front of its returns and line feeds. */
  lemma LinesAreTightened(a: string, e: string, rest: string)
    requires NoBreaks(a) && (e == "\n" || e == "\r\n" || (e == "\r" && (rest == "" || rest[0] != '\n')))
    ensures TableText(a + e + rest) == Tighten(a) + e + TableText(rest)
    ensures TableText("") == "" && (a != "" ==> TableText(a) == Tighten(a))
  {
    SplitAtBreak(a, e, rest);
    MapOfEnd(a, e);
    assert ([a + e] + SplitLines(rest))[1..] == SplitLines(rest);
    JoinOfCons(Tighten(a) + e, MapLines(Tighten, SplitLines(rest)));
    if a != "" {
      MapOfEnd(a, "");
      assert a + "" == a && Tighten(a) + "" == Tighten(a);
      assert [a][1..] == [] && Join([Tighten(a)]) == Tighten(a) + "";
    }
  }

  /** The body of the loop. */
  method TightenLine(line: string) returns (r: string)
    ensures r == MapLine(Tighten, line)
  {
    var content := Content(line);
    var eol := line[|content|..];
    if IsRow(content) {
      var padded := PadBefore(content);
      r := PadAfter(padded, '\0') + eol;
    } else {
      assert line == content + eol;
      r := line;
    }
  }

  method MarkdownTableWs(text: string) returns (r: string)
    ensures r == TableText(text)
  {
    var out := MapLinesLoop(SplitLines(text));
    r := Join(out);
  }

  method MapLinesLoop(lines: seq<string>) returns (out: seq<string>)
    ensures out == MapLines(Tighten, lines)
  {
    out := [];
    for i := 0 to |lines|
      invariant out == MapLines(Tighten, lines)[..i]
    {
      var line := TightenLine(lines[i]);
      out := out + [line];
    }
  }

  // ---- lines stay lines -------------------------------------------------------------------

  /** A break at the end of the content goes through both substitutions. */
  lemma {:induction false} PadBeforeOfBreak(s: string, x: char)
    requires x != ' ' && x != '|'
    ensures PadBefore(s + [x]) == PadBefore(s) + [x]
    decreases |s|
  {
    var t := s + [x];
    if s == "" {
      assert t == [x] && t[1..] == "";
    } else {
      var k := Span(IsSp, s);
      assert t[..k] == s[..k] && (k < |s| ==> t[k] == s[k]);
      SpanUnique(IsSp, t, k);
      assert PadLen(t) == PadLen(s);
      var n := if Matches(PadLen, s) then k else 1;
      assert t[n..] == s[n..] + [x];
      PadBeforeOfBreak(s[n..], x);
    }
  }

  lemma SpacesOfBreak(s: string, x: char)
    requires x != ' '
    ensures Span(IsSp, s + [x]) == Span(IsSp, s)
  {
    var k := Span(IsSp, s);
    assert (s + [x])[..k] == s[..k] && (k < |s| ==> (s + [x])[k] == s[k]);
    SpanUnique(IsSp, s + [x], k);
  }

  lemma {:induction false} PadAfterOfBreak(s: string, x: char, prev: char)
    requires x != ' ' && x != '|'
    ensures PadAfter(s + [x], prev) == PadAfter(s, prev) + [x]
    decreases |s|
  {
    var t := s + [x];
    if s == "" {
      assert t == [x] && t[1..] == "";
    } else {
      var k := Span(IsSp, s);
      SpacesOfBreak(s, x);
      if prev == '|' && k >= 2 {
        DropInside(s, [x], k);
        PadAfterOfBreak(s[k..], x, ' ');
        Regroup(" ", PadAfter(s[k..], ' '), [x]);
      } else {
        DropInside(s, [x], 1);
        PadAfterOfBreak(s[1..], x, s[0]);
        Regroup([s[0]], PadAfter(s[1..], s[0]), [x]);
      }
    }
  }

  /** The two pipes of a row, with a character more and with one less. */
  lemma RowWithBreak(b: string, x: char, i: nat, j: nat)
    requires IsSpace(x) && i < j < |b| && b[i] == '|' && b[j] == '|'
    requires All(IsSpace, b[..i]) && All(IsSpace, b[j + 1..])
    ensures IsRow(b + [x])
  {
    var c := b + [x];
    assert c[i] == '|' && c[j] == '|' && c[..i] == b[..i] && c[j + 1..] == b[j + 1..] + [x];
  }

  lemma RowWithoutBreak(b: string, x: char, i: nat, j: nat)
    requires x != '|' && i < j <= |b| && (b + [x])[i] == '|' && (b + [x])[j] == '|'
    requires All(IsSpace, (b + [x])[..i]) && All(IsSpace, (b + [x])[j + 1..])
    ensures IsRow(b)
  {
    var c := b + [x];
    assert b[i] == '|' && b[j] == '|' && c[..i] == b[..i];
    assert c[j + 1..][..|b| - j - 1] == b[j + 1..];
  }

  lemma RowOfBreak(b: string, x: char)
    requires IsSpace(x) && x != '|'
    ensures IsRow(b + [x]) <==> IsRow(b)
  {
    if IsRow(b) {
      var i, j :| 0 <= i < |b| && i < j < |b| && b[i] == '|' && b[j] == '|' && All(IsSpace, b[..i]) && All(IsSpace, b[j + 1..]);
      RowWithBreak(b, x, i, j);
    } else if IsRow(b + [x]) {
      var c := b + [x];
      var i, j :| 0 <= i < |c| && i < j < |c| && c[i] == '|' && c[j] == '|' && All(IsSpace, c[..i]) && All(IsSpace, c[j + 1..]);
      RowWithoutBreak(b, x, i, j);
    }
  }

  lemma TightenOfBreak(b: string, x: char)
    requires IsBreak(x)
    ensures Tighten(b + [x]) == Tighten(b) + [x]
  {
    RowOfBreak(b, x);
    PadBeforeOfBreak(b, x);
    PadAfterOfBreak(PadBefore(b), x, '\0');
  }

  /** A line is mapped by tightening what is before its ending, whatever break that is. */
  lemma MapOfShape(b: string, e: string)
    requires NoBreaks(b) && IsEnding(e)
    ensures MapLine(Tighten, b + e) == Tighten(b) + e
  {
    var l := b + e;
    if e != "" && e[0] != '\n' && e[0] != '\r' {
      assert Content(l) == l;
      assert e == [e[0]];
      TightenOfBreak(b, e[0]);
    } else {
      assert b != "" ==> !IsBreak(b[|b| - 1]);
      ContentOfAppend(b, e);
      assert l[|b|..] == e;
    }
  }

  lemma {:induction false} PadAfterKeepsAll(p: char -> bool, s: string, prev: char)
    requires All(p, s) && p(' ')
    ensures All(p, PadAfter(s, prev))
    decreases |s|
  {
    if s != "" {
      var k := Span(IsSp, s);
      if prev == '|' && k >= 2 {
        PadAfterKeepsAll(p, s[k..], ' ');
      } else {
        PadAfterKeepsAll(p, s[1..], s[0]);
      }
    }
  }

  predicate NotBreak(c: char) { !IsBreak(c) }

  lemma TightenKeepsBreaksOut(b: string)
    requires NoBreaks(b)
    ensures NoBreaks(Tighten(b)) && (Tighten(b) == "" <==> b == "")
  {
    TightenKeepsTheTable(b);
    SubKeepsAll(PadLen, OneSpace, NotBreak, b);
    PadAfterKeepsAll(NotBreak, PadBefore(b), '\0');
    assert forall i | 0 <= i < |TightenRow(b)| :: NotBreak(TightenRow(b)[i]);
  }

  /** `m` is a line, fixed by mapping it again, that may stand where `l` stands. */
  predicate Replaces(f: string -> string, m: string, l: string) {
    && l != "" && IsLine(m) && MapLine(f, m) == m
    && (IsBreak(l[|l| - 1]) ==> m[|m| - 1] == l[|l| - 1])
    && (m[0] == '\n' ==> l[0] == '\n')
  }

  lemma MappedLine(l: string)
    requires IsLine(l)
    ensures Replaces(Tighten, MapLine(Tighten, l), l)
  {
    var b, e := LineShape(l);
    var d := Tighten(b);
    MapOfShape(b, e);
    TightenKeepsBreaksOut(b);
    LineOfShape(d, e);
    MapOfShape(d, e);
    TightenKeepsTheTable(b);
    LastAndFirst(b, d, e);
  }

  lemma LastAndFirst(b: string, d: string, e: string)
    requires NoBreaks(b) && NoBreaks(d) && (b == "" <==> d == "") && (e == "" ==> b != "")
    ensures var l, m := b + e, d + e;
            && (IsBreak(l[|l| - 1]) ==> m[|m| - 1] == l[|l| - 1])
            && (m[0] == '\n' ==> l[0] == '\n')
  {
    if e == "" {
      assert b + e == b && d + e == d;
      assert !IsBreak(b[|b| - 1]);
    }
    if d != "" {
      assert !IsBreak(d[0]);
    }
  }

  lemma ReplacedFollow(f: string -> string, a: string, b: string, l: string, m: string)
    requires Follows(a, b) && Replaces(f, l, a) && Replaces(f, m, b)
    ensures Follows(l, m)
  {
  }

  lemma MappedLines(f: string -> string, ls: seq<string>)
    requires LinesOfText(ls) && forall l | IsLine(l) :: Replaces(f, MapLine(f, l), l)
    ensures var ms := MapLines(f, ls); LinesOfText(ms) && MapLines(f, ms) == ms
  {
    var ms := MapLines(f, ls);
    forall i | 0 <= i < |ls| ensures Replaces(f, ms[i], ls[i]) {
      assert IsLine(ls[i]);
    }
    forall i | 0 < i < |ms| ensures Follows(ms[i - 1], ms[i]) {
      ReplacedFollow(f, ls[i - 1], ls[i], ms[i - 1], ms[i]);
    }
  }

  /** Main result on texts: a second pass does nothing, whatever the line breaks are. */
  lemma TableTextIsIdempotent(t: string)
    ensures TableText(TableText(t)) == TableText(t)
  {
    var ls := SplitLines(t);
    SplitGivesLines(t);
    forall l | IsLine(l) ensures Replaces(Tighten, MapLine(Tighten, l), l) {
      MappedLine(l);
    }
    MappedLines(Tighten, ls);
    SplitOfJoin(MapLines(Tighten, ls));
  }

  lemma {:induction false} PadAfterShortens(s: string, prev: char)
    ensures |PadAfter(s, prev)| <= |s|
    ensures |PadAfter(s, prev)| == |s| ==> PadAfter(s, prev) == s
    decreases |s|
  {
    if s != "" {
      var k := Span(IsSp, s);
      if prev == '|' && k >= 2 {
        PadAfterShortens(s[k..], ' ');
      } else {
        PadAfterShortens(s[1..], s[0]);
      }
    }
  }

  /** `f` changes a text only by making it shorter. */
  ghost predicate OnlyShortens(f: string -> string) {
    forall c :: |f(c)| <= |c| && (|f(c)| == |c| ==> f(c) == c)
  }

  lemma TightenOnlyShortens()
    ensures OnlyShortens(Tighten)
  {
    forall c ensures |Tighten(c)| <= |c| && (|Tighten(c)| == |c| ==> Tighten(c) == c) {
      SubChangesIffShorter(PadLen, OneSpace, c);
      PadAfterShortens(PadBefore(c), '\0');
    }
  }

  lemma {:induction false} MappedTextIsShorter(f: string -> string, ls: seq<string>)
    requires OnlyShortens(f)
    ensures |Join(MapLines(f, ls))| <= |Join(ls)|
    ensures |Join(MapLines(f, ls))| == |Join(ls)| ==> MapLines(f, ls) == ls
  {
    if ls != [] {
      MappedTextIsShorter(f, ls[1..]);
      var c := Content(ls[0]);
      assert |f(c)| <= |c| && (|f(c)| == |c| ==> f(c) == c);
      assert c + ls[0][|c|..] == ls[0];
    }
  }

  /** On every text: the pass changes it only by making it shorter. */
  lemma TableTextIsShorter(t: string)
    ensures TableText(t) != t <==> |TableText(t)| < |t|
    ensures |TableText(t)| <= |t|
  {
    TightenOnlyShortens();
    MappedTextIsShorter(Tighten, SplitLines(t));
    JoinOfSplit(t);
  }
}
