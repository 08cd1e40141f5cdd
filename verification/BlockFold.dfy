/**
  `repeated_block_fold` (engine/simplicio_compress_extra.py): consecutive copies of a block of
  three or more lines become the block and a marker, the largest block first; and the decoder
  that takes the markers back. How a marker is written and read is a `Codec`; the one of the
  source is `CODEC`.
 */
module BlockFold {
  import opened Text
  import opened Wrappers

  const LEAST_BLOCK: nat := 3

  /** Writing and reading a marker: the block length and the number of repetitions. */
  datatype Codec = Codec(read: string -> Option<(nat, nat)>, write: (seq<string>, nat) -> string)
  {
    ghost predicate Good() {
      forall block, r: nat | block != [] && IsLine(block[|block| - 1]) ::
        read(write(block, r)) == Some((|block|, r)) && Fits(write(block, r), block[|block| - 1])
    }

    predicate MarkerFree(s: seq<string>) {
      forall l | l in s :: read(l) == None
    }
  }

  /** `m` is a closed line that may stand wherever `l` stands. */
  predicate Fits(m: string, l: string) {
    && IsLine(m) && IsBreak(m[|m| - 1]) && m[0] != '\n'
    && (m[|m| - 1] == '\r' ==> l != "" && l[|l| - 1] == '\r')
  }

  // ---- the fold ---------------------------------------------------------------------------

  predicate StandsAt(s: seq<string>, j: nat, block: seq<string>) {
    j + |block| <= |s| && s[j..j + |block|] == block
  }

  /** How many copies of `block` stand in a row at line `j` of `s`. */
  function Copies(s: seq<string>, j: nat, block: seq<string>): nat
    requires j <= |s| && block != []
    decreases |s| - j
  {
    if StandsAt(s, j, block) then 1 + Copies(s, j + |block|, block) else 0
  }

  /** The line after those copies. */
  function CopiesEnd(s: seq<string>, j: nat, block: seq<string>): (n: nat)
    requires j <= |s| && block != []
    ensures j <= n <= |s|
    ensures StandsAt(s, j, block) ==> j + |block| <= n
    decreases |s| - j
  {
    if StandsAt(s, j, block) then CopiesEnd(s, j + |block|, block) else j
  }

  /** May the first `b` lines of `s` be folded: no marker among them, and they come again? */
  predicate FoldsAt(c: Codec, s: seq<string>, b: nat) {
    LEAST_BLOCK <= b <= |s| / 2 && s[..b] == s[b..2 * b] && c.MarkerFree(s[..b])
  }

  /** The largest such block length that is at most `b`; 0 if there is none. */
  function LargestBlock(c: Codec, s: seq<string>, b: nat): (r: nat)
    ensures r > 0 ==> r <= b && FoldsAt(c, s, r)
    ensures forall k | r < k <= b :: !FoldsAt(c, s, k)
  {
    if b == 0 then 0 else if FoldsAt(c, s, b) then b else LargestBlock(c, s, b - 1)
  }

  function FoldBlocks(c: Codec, s: seq<string>): seq<string>
    decreases |s|
  {
    if s == [] then [] else
      var b := LargestBlock(c, s, |s| / 2);
      if b == 0 then [s[0]] + FoldBlocks(c, s[1..]) else
        var block := s[..b];
        assert StandsAt(s, 0, block);
        block + ([c.write(block, Copies(s, 0, block))] + FoldBlocks(c, s[CopiesEnd(s, 0, block)..]))
  }

  /** One round of the outer loop: the fold at line `i`, or that line. */
  function Piece(c: Codec, s: seq<string>, b: nat): seq<string>
    requires b <= |s| && s != []
  {
    if b == 0 then [s[0]] else s[..b] + [c.write(s[..b], Copies(s, 0, s[..b]))]
  }

  function PieceEnd(s: seq<string>, b: nat): (n: nat)
    requires b <= |s| && s != []
    ensures 0 < n <= |s|
  {
    assert b > 0 ==> StandsAt(s, 0, s[..b]);
    if b == 0 then 1 else CopiesEnd(s, 0, s[..b])
  }

  lemma FoldStep(c: Codec, lines: seq<string>, i: nat, b: nat)
    requires i < |lines| && b == LargestBlock(c, lines[i..], |lines[i..]| / 2)
    ensures var s := lines[i..];
            FoldBlocks(c, s) == Piece(c, s, b) + FoldBlocks(c, lines[i + PieceEnd(s, b)..])
  {
    var s := lines[i..];
    var rest := s[PieceEnd(s, b)..];
    assert rest == lines[i + PieceEnd(s, b)..];
    if b > 0 {
      var block := s[..b];
      var m := c.write(block, Copies(s, 0, block));
      assert block + [m] + FoldBlocks(c, rest) == block + ([m] + FoldBlocks(c, rest));
    }
  }

  lemma TwoCopies(s: seq<string>, b: nat, block: seq<string>)
    requires 0 < b <= |s| / 2 && block == s[..b]
    ensures Copies(s, 0, block) >= 2 <==> block == s[b..2 * b]
    ensures Copies(s, 0, block) >= 1
    ensures block == s[b..2 * b] ==> CopiesEnd(s, 0, block) >= 2 * b
  {
    assert StandsAt(s, 0, block);
    assert StandsAt(s, b, block) <==> block == s[b..2 * b];
  }

  // ---- the loops --------------------------------------------------------------------------

  lemma {:induction false} CopiesInSuffix(s: seq<string>, i: nat, j: nat, block: seq<string>)
    requires i + j <= |s| && block != []
    ensures Copies(s[i..], j, block) == Copies(s, i + j, block)
    ensures i + CopiesEnd(s[i..], j, block) == CopiesEnd(s, i + j, block)
    decreases |s| - j
  {
    if i + j + |block| <= |s| {
      assert s[i..][j..j + |block|] == s[i + j..i + j + |block|];
      CopiesInSuffix(s, i, j + |block|, block);
    }
  }

  method CountCopies(lines: seq<string>, i: nat, block: seq<string>) returns (reps: nat, j: nat)
    requires block != [] && StandsAt(lines, i, block)
    ensures reps == Copies(lines, i, block) && j == CopiesEnd(lines, i, block)
  {
    reps, j := 1, i + |block|;
    while j + |block| <= |lines| && lines[j..j + |block|] == block
      invariant j <= |lines|
      invariant reps + Copies(lines, j, block) == Copies(lines, i, block)
      invariant CopiesEnd(lines, j, block) == CopiesEnd(lines, i, block)
    {
      reps, j := reps + 1, j + |block|;
    }
  }

  /** The body of the inner `for` loop: is there a fold of `b` lines at line `i`? */
  method TryBlock(c: Codec, lines: seq<string>, i: nat, b: nat)
    returns (found: bool, piece: seq<string>, j: nat)
    requires LEAST_BLOCK <= b && i + 2 * b <= |lines|
    ensures found <==> FoldsAt(c, lines[i..], b)
    ensures found ==> piece == Piece(c, lines[i..], b) && j == i + PieceEnd(lines[i..], b)
  {
    found, piece, j := false, [], i;
    var block := lines[i..i + b];
    assert block == lines[i..][..b];
    if c.MarkerFree(block) {
      var reps, end := CountCopies(lines, i, block);
      CopiesInSuffix(lines, i, 0, block);
      TwoCopies(lines[i..], b, block);
      if reps >= 2 {
        found, piece, j := true, block + [c.write(block, reps)], end;
      }
    }
  }

  /** The inner `for` loop: the fold at line `i`, if there is one. */
  method FoldOne(c: Codec, lines: seq<string>, i: nat) returns (piece: seq<string>, j: nat)
    requires i < |lines|
    ensures i < j <= |lines|
    ensures FoldBlocks(c, lines[i..]) == piece + FoldBlocks(c, lines[j..])
  {
    ghost var s := lines[i..];
    var b: nat := (|lines| - i) / 2;
    while b >= LEAST_BLOCK
      invariant b <= |s| / 2
      invariant LargestBlock(c, s, |s| / 2) == LargestBlock(c, s, b)
    {
      var found;
      found, piece, j := TryBlock(c, lines, i, b);
      if found {
        FoldStep(c, lines, i, b);
        return;
      }
      b := b - 1;
    }
    NoSmallBlock(c, s, b);
    FoldStep(c, lines, i, 0);
    return [lines[i]], i + 1;
  }

  lemma {:induction false} NoSmallBlock(c: Codec, s: seq<string>, b: nat)
    requires b < LEAST_BLOCK
    ensures LargestBlock(c, s, b) == 0
  {
    if b > 0 {
      NoSmallBlock(c, s, b - 1);
    }
  }

  method FoldLines(c: Codec, lines: seq<string>) returns (out: seq<string>)
    ensures out == FoldBlocks(c, lines)
  {
    out := [];
    var i := 0;
    while i < |lines|
      invariant i <= |lines|
      invariant out + FoldBlocks(c, lines[i..]) == FoldBlocks(c, lines)
    {
      var piece, j := FoldOne(c, lines, i);
      Regroup(out, piece, FoldBlocks(c, lines[j..]));
      out, i := out + piece, j;
    }
    assert lines[i..] == [];
  }

  method RepeatedBlockFold(text: string) returns (r: string)
    ensures r == FoldText(text)
  {
    var lines := SplitLines(text);
    if |lines| < LEAST_BLOCK * 2 {
      FewLinesStay(CODEC, lines);
      JoinOfSplit(text);
      return text;
    }
    var out := FoldLines(CODEC, lines);
    r := Join(out);
  }

  lemma {:induction false} FewLinesStay(c: Codec, s: seq<string>)
    requires |s| < LEAST_BLOCK * 2
    ensures FoldBlocks(c, s) == s
  {
    if s != [] {
      NoSmallBlock(c, s, |s| / 2);
      FewLinesStay(c, s[1..]);
    }
  }

  // ---- decoding ---------------------------------------------------------------------------

  function Times(block: seq<string>, n: nat): seq<string> {
    if n == 0 then [] else block + Times(block, n - 1)
  }

  /** Reading one more line: a marker (b, r) stands for r - 1 more copies of the last b lines
      decoded. A marker that cannot be one is kept as a line. */
  function UnfoldLine(c: Codec, decoded: seq<string>, l: string): seq<string> {
    match c.read(l)
    case None => decoded + [l]
    case Some((b, r)) =>
      if r == 0 || b > |decoded| then decoded + [l]
      else decoded + Times(decoded[|decoded| - b..], r - 1)
  }

  function UnfoldFrom(c: Codec, decoded: seq<string>, s: seq<string>): seq<string>
    decreases |s|
  {
    if s == [] then decoded else UnfoldFrom(c, UnfoldLine(c, decoded, s[0]), s[1..])
  }

  lemma {:induction false} UnfoldAppend(c: Codec, decoded: seq<string>, a: seq<string>, b: seq<string>)
    ensures UnfoldFrom(c, decoded, a + b) == UnfoldFrom(c, UnfoldFrom(c, decoded, a), b)
    decreases |a|
  {
    if a == [] {
      assert a + b == b;
    } else {
      assert (a + b)[1..] == a[1..] + b;
      UnfoldAppend(c, UnfoldLine(c, decoded, a[0]), a[1..], b);
    }
  }

  lemma {:induction false} UnfoldOfMarkerFree(c: Codec, decoded: seq<string>, s: seq<string>)
    requires c.MarkerFree(s)
    ensures UnfoldFrom(c, decoded, s) == decoded + s
    decreases |s|
  {
    if s != [] {
      UnfoldOfMarkerFree(c, decoded + [s[0]], s[1..]);
      assert decoded + [s[0]] + s[1..] == decoded + s;
    }
  }

  lemma {:induction false} CopiesInFront(s: seq<string>, j: nat, block: seq<string>)
    requires j <= |s| && block != []
    ensures s[j..] == Times(block, Copies(s, j, block)) + s[CopiesEnd(s, j, block)..]
    decreases |s| - j
  {
    if StandsAt(s, j, block) {
      CopiesInFront(s, j + |block|, block);
      assert s[j..] == block + s[j + |block|..];
    }
  }

  lemma {:induction false} TimesIsMarkerFree(c: Codec, block: seq<string>, n: nat)
    requires c.MarkerFree(block)
    ensures c.MarkerFree(Times(block, n))
  {
    if n > 0 {
      TimesIsMarkerFree(c, block, n - 1);
    }
  }

  lemma UnfoldMarker(c: Codec, decoded: seq<string>, block: seq<string>, reps: nat, m: string)
    requires reps >= 1 && c.read(m) == Some((|block|, reps))
    ensures UnfoldLine(c, decoded + block, m) == decoded + Times(block, reps)
  {
    var d := decoded + block;
    assert d[|d| - |block|..] == block;
    assert d + Times(block, reps - 1) == decoded + (block + Times(block, reps - 1));
  }

  /** One fold, decoded: the block and its marker give the copies. */
  lemma UnfoldOneFold(c: Codec, decoded: seq<string>, block: seq<string>, reps: nat, m: string, folded: seq<string>)
    requires c.MarkerFree(block) && reps >= 1 && c.read(m) == Some((|block|, reps))
    ensures UnfoldFrom(c, decoded, block + ([m] + folded)) == UnfoldFrom(c, decoded + Times(block, reps), folded)
  {
    UnfoldAppend(c, decoded, block, [m] + folded);
    UnfoldOfMarkerFree(c, decoded, block);
    assert ([m] + folded)[1..] == folded;
    UnfoldMarker(c, decoded, block, reps, m);
  }

  lemma UnfoldCopies(c: Codec, decoded: seq<string>, s: seq<string>, block: seq<string>)
    requires block != [] && c.MarkerFree(block)
    ensures UnfoldFrom(c, decoded, s)
         == UnfoldFrom(c, decoded + Times(block, Copies(s, 0, block)), s[CopiesEnd(s, 0, block)..])
  {
    var reps := Copies(s, 0, block);
    CopiesInFront(s, 0, block);
    assert s[0..] == s;
    TimesIsMarkerFree(c, block, reps);
    UnfoldAppend(c, decoded, Times(block, reps), s[CopiesEnd(s, 0, block)..]);
    UnfoldOfMarkerFree(c, decoded, Times(block, reps));
  }

  /** Block folding is lossless, whatever was decoded before and even when `s` has markers. */
  lemma {:induction false} UnfoldUndoesFold(c: Codec, decoded: seq<string>, s: seq<string>)
    requires c.Good() && forall l | l in s :: IsLine(l)
    ensures UnfoldFrom(c, decoded, FoldBlocks(c, s)) == UnfoldFrom(c, decoded, s)
    decreases |s|
  {
    if s == [] {
    } else {
      var b := LargestBlock(c, s, |s| / 2);
      if b == 0 {
        UnfoldUndoesFold(c, UnfoldLine(c, decoded, s[0]), s[1..]);
        assert ([s[0]] + FoldBlocks(c, s[1..]))[1..] == FoldBlocks(c, s[1..]);
      } else {
        var block := s[..b];
        var reps, rest := Copies(s, 0, block), s[CopiesEnd(s, 0, block)..];
        TwoCopies(s, b, block);
        UnfoldCopies(c, decoded, s, block);
        UnfoldOneFold(c, decoded, block, reps, c.write(block, reps), FoldBlocks(c, rest));
        UnfoldUndoesFold(c, decoded + Times(block, reps), rest);
      }
    }
  }

  // ---- the output is a text's lines -------------------------------------------------------

  lemma {:induction false} LastCopyEnds(s: seq<string>, j: nat, block: seq<string>)
    requires block != [] && StandsAt(s, j, block)
    ensures s[CopiesEnd(s, j, block) - 1] == block[|block| - 1]
    decreases |s| - j
  {
    var k := j + |block|;
    if StandsAt(s, k, block) {
      LastCopyEnds(s, k, block);
    } else {
      assert s[j..k][|block| - 1] == s[k - 1];
    }
  }

  lemma {:induction false} FoldGivesLines(c: Codec, s: seq<string>)
    requires c.Good() && LinesOfText(s)
    ensures LinesOfText(FoldBlocks(c, s))
    ensures s != [] ==> FoldBlocks(c, s) != [] && FoldBlocks(c, s)[0] == s[0]
    decreases |s|
  {
    if s == [] {
    } else if LargestBlock(c, s, |s| / 2) == 0 {
      LinesTail(s, 1);
      FoldGivesLines(c, s[1..]);
      assert |s| > 1 ==> Follows(s[0], s[1]);
      LinesCons(s[0], FoldBlocks(c, s[1..]));
    } else {
      var b := LargestBlock(c, s, |s| / 2);
      var block := s[..b];
      var reps, n := Copies(s, 0, block), CopiesEnd(s, 0, block);
      TwoCopies(s, b, block);
      LastCopyEnds(s, 0, block);
      LinesTail(s, n);
      FoldGivesLines(c, s[n..]);
      FoldedHeadLines(s, b, c.write(block, reps), n, FoldBlocks(c, s[n..]));
    }
  }

  /** The first `b` lines of `s`, a marker, and what was made of the lines from `n` on. */
  lemma FoldedHeadLines(s: seq<string>, b: nat, m: string, n: nat, folded: seq<string>)
    requires LinesOfText(s) && 0 < b < n <= |s| && s[b - 1] == s[n - 1]
    requires Fits(m, s[b - 1])
    requires LinesOfText(folded)
    requires folded != [] ==> n < |s| && folded[0] == s[n]
    ensures LinesOfText(s[..b] + ([m] + folded))
  {
    if folded != [] {
      assert Follows(s[n - 1], s[n]);
    }
    LinesCons(m, folded);
    assert Follows(s[b - 1], s[b]);
    LinesPrefix(s, b);
    LinesAppend(s[..b], [m] + folded);
  }

  // ---- fixpoints --------------------------------------------------------------------------

  /** No block of `s` may be folded, at any line and of any length. */
  ghost predicate NothingToFold(c: Codec, s: seq<string>) {
    s == [] || ((forall b: nat :: !FoldsAt(c, s, b)) && NothingToFold(c, s[1..]))
  }

  /** The fold never adds lines, and it keeps their number only when there is nothing to fold. */
  lemma {:induction false} FoldShortens(c: Codec, s: seq<string>)
    ensures |FoldBlocks(c, s)| <= |s|
    ensures |FoldBlocks(c, s)| == |s| ==> NothingToFold(c, s)
    decreases |s|
  {
    if s != [] {
      var b := LargestBlock(c, s, |s| / 2);
      if b == 0 {
        FoldShortens(c, s[1..]);
      } else {
        TwoCopies(s, b, s[..b]);
        FoldShortens(c, s[CopiesEnd(s, 0, s[..b])..]);
      }
    }
  }

  lemma {:induction false} NothingToFoldStays(c: Codec, s: seq<string>)
    requires NothingToFold(c, s)
    ensures FoldBlocks(c, s) == s
  {
    if s != [] {
      assert LargestBlock(c, s, |s| / 2) == 0;
      NothingToFoldStays(c, s[1..]);
    }
  }

  lemma FoldFixpoint(c: Codec, s: seq<string>)
    ensures FoldBlocks(c, s) == s <==> NothingToFold(c, s)
  {
    FoldShortens(c, s);
    if NothingToFold(c, s) {
      NothingToFoldStays(c, s);
    }
  }

  /** Each block that the fold keeps has itself nothing to fold. */
  ghost predicate NoNestedBlocks(c: Codec, s: seq<string>)
    decreases |s|
  {
    s == [] ||
    (var b := LargestBlock(c, s, |s| / 2);
     if b == 0 then NoNestedBlocks(c, s[1..])
     else
       assert StandsAt(s, 0, s[..b]);
       NothingToFold(c, s[..b]) && NoNestedBlocks(c, s[CopiesEnd(s, 0, s[..b])..]))
  }

  /** A prefix of the output that holds no marker is a prefix of the input. */
  lemma {:induction false} MarkerFreePrefix(c: Codec, s: seq<string>, n: nat)
    requires c.Good() && forall l | l in s :: IsLine(l)
    requires n <= |FoldBlocks(c, s)| && forall i | 0 <= i < n :: c.read(FoldBlocks(c, s)[i]) == None
    ensures n <= |s| && FoldBlocks(c, s)[..n] == s[..n]
    decreases |s|
  {
    if s != [] && n > 0 {
      var out := FoldBlocks(c, s);
      var b := LargestBlock(c, s, |s| / 2);
      if b == 0 {
        assert out[1..] == FoldBlocks(c, s[1..]);
        MarkerFreePrefix(c, s[1..], n - 1);
        assert out[..n] == [s[0]] + out[1..][..n - 1];
        assert s[..n] == [s[0]] + s[1..][..n - 1];
      } else {
        var block := s[..b];
        var m := c.write(block, Copies(s, 0, block));
        assert IsLine(s[b - 1]) && c.read(m).Some?;
        assert out[b] == m;
        assert out[..n] == s[..n];
      }
    }
  }

  lemma MarkerInTheWay(c: Codec, block: seq<string>, m: string, rest: seq<string>, b: nat)
    requires c.read(m).Some?
    ensures FoldsAt(c, block + ([m] + rest), b) <==> FoldsAt(c, block, b)
  {
    var s := block + ([m] + rest);
    if 2 * b <= |block| {
      assert s[..b] == block[..b] && s[b..2 * b] == block[b..2 * b];
    } else if b <= |s| / 2 {
      assert s[|block|] == m;
      if b > |block| {
        assert s[..b][|block|] == m;
      } else {
        assert s[b..2 * b][|block| - b] == m;
      }
    }
  }

  /** A marker separates: what can be folded lies on one side of it. */
  lemma {:induction false} MarkerSeparates(c: Codec, block: seq<string>, m: string, rest: seq<string>)
    requires c.read(m).Some?
    ensures NothingToFold(c, block + ([m] + rest)) <==> NothingToFold(c, block) && NothingToFold(c, rest)
  {
    var s := block + ([m] + rest);
    if block == [] {
      assert s[1..] == rest && s[0] == m;
      forall b: nat ensures !FoldsAt(c, s, b) {
        assert b > 0 && b <= |s| ==> s[..b][0] == m;
      }
    } else {
      assert s[1..] == block[1..] + ([m] + rest);
      MarkerSeparates(c, block[1..], m, rest);
      forall b: nat ensures FoldsAt(c, s, b) <==> FoldsAt(c, block, b) {
        MarkerInTheWay(c, block, m, rest, b);
      }
    }
  }

  lemma WindowIsMarkerFree(c: Codec, s: seq<string>, k: nat)
    requires FoldsAt(c, s, k)
    ensures forall i | 0 <= i < 2 * k :: c.read(s[i]) == None
  {
    forall i | 0 <= i < 2 * k ensures c.read(s[i]) == None {
      var l := if i < k then s[..k][i] else s[k..2 * k][i - k];
      assert l in s[..k];
    }
  }

  lemma FoldInOutput(c: Codec, s: seq<string>, k: nat)
    requires c.Good() && forall l | l in s :: IsLine(l)
    requires FoldsAt(c, FoldBlocks(c, s), k)
    ensures FoldsAt(c, s, k)
  {
    var out := FoldBlocks(c, s);
    WindowIsMarkerFree(c, out, k);
    MarkerFreePrefix(c, s, 2 * k);
    assert s[..k] == out[..2 * k][..k] == out[..k];
    assert s[k..2 * k] == out[..2 * k][k..] == out[k..2 * k];
  }

  lemma {:induction false} OutputHasNothingToFold(c: Codec, s: seq<string>)
    requires c.Good() && forall l | l in s :: IsLine(l)
    ensures NothingToFold(c, FoldBlocks(c, s)) <==> NoNestedBlocks(c, s)
    decreases |s|
  {
    if s != [] {
      var out := FoldBlocks(c, s);
      var b := LargestBlock(c, s, |s| / 2);
      if b == 0 {
        assert out[1..] == FoldBlocks(c, s[1..]);
        OutputHasNothingToFold(c, s[1..]);
        forall k: nat ensures !FoldsAt(c, out, k) {
          if FoldsAt(c, out, k) {
            FoldInOutput(c, s, k);
          }
        }
      } else {
        var block := s[..b];
        var m, rest := c.write(block, Copies(s, 0, block)), s[CopiesEnd(s, 0, block)..];
        assert StandsAt(s, 0, block) && IsLine(block[b - 1]);
        MarkerSeparates(c, block, m, FoldBlocks(c, rest));
        OutputHasNothingToFold(c, rest);
      }
    }
  }

  lemma DoubledFolds(c: Codec, x: seq<string>, rest: seq<string>)
    requires |x| >= LEAST_BLOCK && c.MarkerFree(x)
    ensures FoldsAt(c, x + x + rest, |x|)
  {
    var s := x + x + rest;
    assert s[..|x|] == x && s[|x|..2 * |x|] == x;
  }

  // ---- the markers of the source ----------------------------------------------------------

  const BEFORE: string := [ELLIPSIS] + " (identical "
  const BETWEEN: string := "-line block repeated "
  const AFTER: string := "x)"

  function MarkerText(b: nat, r: nat): string {
    Numbered(BEFORE, b, Numbered(BETWEEN, r, AFTER))
  }

  /** `_BLOCK_MARKER_RE`, with the two numbers it matches. */
  function ReadText(c: string): Option<(nat, nat)> {
    match After(BEFORE, c)
    case None => None
    case Some(tail) =>
      match TakeNumber(tail)
      case None => None
      case Some((b, rest)) =>
        match NumberIn(BETWEEN, AFTER, rest)
        case None => None
        case Some(r) => Some((b, r))
  }

  function ReadMarker(l: string): Option<(nat, nat)> {
    ReadText(Content(l))
  }

  function WriteMarker(block: seq<string>, reps: nat): string {
    MarkerText(|block|, reps) + EolFor(if block == [] then "" else block[|block| - 1])
  }

  const CODEC: Codec := Codec(ReadMarker, WriteMarker)

  lemma PlainLiterals()
    ensures NoBreaks(BEFORE) && NoBreaks(BETWEEN) && NoBreaks(AFTER)
  {
  }

  lemma MarkerReadsBack(b: nat, r: nat)
    ensures ReadText(MarkerText(b, r)) == Some((b, r))
    ensures NoBreaks(MarkerText(b, r)) && MarkerText(b, r) != "" && MarkerText(b, r)[0] == ELLIPSIS
  {
    var rest := Numbered(BETWEEN, r, AFTER);
    PlainLiterals();
    assert rest[0] == BETWEEN[0];
    assert MarkerText(b, r) == BEFORE + (Dec(b) + rest);
    AfterOfAppend(BEFORE, Dec(b) + rest);
    TakePrinted(b, rest);
    NumberReadsBack(BETWEEN, r, AFTER);
    NoBreaksInNumbered(BETWEEN, r, AFTER);
    NoBreaksInNumbered(BEFORE, b, rest);
  }

  /** What the source writes, it reads back; and its markers may stand where they are put. */
  lemma MarkersAreGood()
    ensures CODEC.Good()
  {
    forall block, r: nat | block != [] && IsLine(block[|block| - 1])
      ensures ReadMarker(WriteMarker(block, r)) == Some((|block|, r))
      ensures Fits(WriteMarker(block, r), block[|block| - 1])
    {
      MarkerReadsBack(|block|, r);
      MarkerLine(MarkerText(|block|, r), block[|block| - 1]);
    }
  }

  // ---- what it does -----------------------------------------------------------------------

  predicate HasMarkerForm(c: string, b: string, r: string) {
    && b != "" && All(IsDigit, b) && r != "" && All(IsDigit, r)
    && c == "\U{2026} (identical " + (b + ("-line block repeated " + (r + "x)")))
  }

  /** The contents that are taken for markers. */
  lemma MarkersAre(c: string)
    ensures ReadText(c).Some? <==> exists b, r :: HasMarkerForm(c, b, r)
  {
    if ReadText(c).Some? {
      FormOfMarker(c);
    }
    if b, r :| HasMarkerForm(c, b, r) {
      MarkerOfForm(c, b, r);
    }
  }

  lemma DigitsFirst(d: string, rest: string)
    requires d != "" && All(IsDigit, d) && rest != "" && !IsDigit(rest[0])
    ensures TakeNumber(d + rest) == Some((ParseDec(d), rest))
  {
    assert (d + rest)[..|d|] == d && (d + rest)[|d|..] == rest;
    SpanUnique(IsDigit, d + rest, |d|);
  }

  lemma MarkerOfForm(c: string, b: string, r: string)
    requires HasMarkerForm(c, b, r)
    ensures ReadText(c).Some?
  {
    var rest := BETWEEN + (r + AFTER);
    assert rest[0] == '-' && AFTER[0] == 'x';
    assert c == BEFORE + (b + rest);
    AfterOfAppend(BEFORE, b + rest);
    DigitsFirst(b, rest);
    AfterOfAppend(BETWEEN, r + AFTER);
    DigitsFirst(r, AFTER);
  }

  lemma NumberForm(s: string) returns (d: string, rest: string)
    requires TakeNumber(s).Some?
    ensures d != "" && All(IsDigit, d) && s == d + rest && TakeNumber(s).value.1 == rest
  {
    var n := Span(IsDigit, s);
    d, rest := s[..n], s[n..];
  }

  lemma FormOfMarker(c: string)
    requires ReadText(c).Some?
    ensures exists b, r :: HasMarkerForm(c, b, r)
  {
    var tail := After(BEFORE, c).value;
    var b, rest := NumberForm(tail);
    var end := After(BETWEEN, rest).value;
    var r, post := NumberForm(end);
    assert c == BEFORE + tail && rest == BETWEEN + end && post == AFTER;
    assert HasMarkerForm(c, b, r);
  }

  lemma MarkerReads(block: seq<string>, n: nat)
    requires block != []
    ensures WriteMarker(block, n)
         == "\U{2026} (identical " + Dec(|block|) + ("-line block repeated " + Dec(n) + "x)") + EolFor(block[|block| - 1])
  {
    assert BEFORE == "\U{2026} (identical ";
  }

  predicate IsMarker(l: string) {
    ReadText(Content(l)).Some?
  }

  /** No line of the first `b` is a marker, and they come again at once. */
  predicate ComesAgain(s: seq<string>, b: nat) {
    2 * b <= |s| && s[..b] == s[b..2 * b] && forall i | 0 <= i < b :: !IsMarker(s[i])
  }

  lemma ComesAgainIsFolds(s: seq<string>, b: nat)
    ensures FoldsAt(CODEC, s, b) <==> b >= 3 && ComesAgain(s, b)
  {
    if b <= |s| {
      NoMarkerIn(s, b);
    }
  }

  lemma NoMarkerIn(s: seq<string>, b: nat)
    requires b <= |s|
    ensures CODEC.MarkerFree(s[..b]) <==> forall i | 0 <= i < b :: !IsMarker(s[i])
  {
    var head := s[..b];
    assert forall i | 0 <= i < b :: head[i] == s[i];
    if CODEC.MarkerFree(head) {
      forall i | 0 <= i < b ensures !IsMarker(s[i]) {
        assert head[i] in head && CODEC.read(s[i]) == ReadMarker(s[i]);
      }
    }
    if forall i | 0 <= i < b :: !IsMarker(s[i]) {
      forall l | l in head ensures CODEC.read(l) == None {
        assert !IsMarker(l) && CODEC.read(l) == ReadMarker(l);
      }
    }
  }

  lemma {:induction false} CopiesOfTimes(block: seq<string>, n: nat, rest: seq<string>)
    requires block != [] && !(block <= rest)
    ensures var s := Times(block, n) + rest;
            Copies(s, 0, block) == n && CopiesEnd(s, 0, block) == |Times(block, n)|
  {
    var s := Times(block, n) + rest;
    if n == 0 {
      assert s == rest;
    } else {
      var tail := Times(block, n - 1) + rest;
      Regroup(block, Times(block, n - 1), rest);
      assert s[0..|block|] == block && s[|block|..] == tail;
      CopiesOfTimes(block, n - 1, rest);
      CopiesInSuffix(s, |block|, 0, block);
    }
  }

  /** Main result: a block of three or more lines without a marker that stands two or more times in a row, and
      is the longest such block at this line, becomes one copy and a marker. */
  lemma BlockIsFolded(block: seq<string>, n: nat, rest: seq<string>, s: seq<string>)
    requires |block| >= 3 && n >= 2 && !(block <= rest) && s == Times(block, n) + rest
    requires forall i | 0 <= i < |block| :: !IsMarker(block[i])
    requires forall b | b > |block| :: !ComesAgain(s, b)
    ensures FoldBlocks(CODEC, s) == block + ([WriteMarker(block, n)] + FoldBlocks(CODEC, rest))
  {
    var r := LargestBlock(CODEC, s, |s| / 2);
    TwoInFront(block, n, rest, s);
    ComesAgainIsFolds(s, |block|);
    ComesAgainIsFolds(s, r);
    FoldOfCopies(CODEC, block, n, rest, s);
    assert CODEC.write(block, n) == WriteMarker(block, n);
  }

  lemma FoldOfCopies(c: Codec, block: seq<string>, n: nat, rest: seq<string>, s: seq<string>)
    requires n > 0 && !(block <= rest) && s == Times(block, n) + rest
    requires block != [] && LargestBlock(c, s, |s| / 2) == |block|
    ensures FoldBlocks(c, s) == block + ([c.write(block, n)] + FoldBlocks(c, rest))
  {
    CopiesOfTimes(block, n, rest);
    Regroup(block, Times(block, n - 1), rest);
    assert s[..|block|] == block && s[|Times(block, n)|..] == rest;
  }

  lemma TwoInFront(block: seq<string>, n: nat, rest: seq<string>, s: seq<string>)
    requires n >= 2 && s == Times(block, n) + rest
    ensures 2 * |block| <= |s| && s[..|block|] == block == s[|block|..2 * |block|]
  {
    assert Times(block, n) == block + (block + Times(block, n - 2));
  }

  /** A line at which no such block starts stays. */
  lemma LineIsKept(s: seq<string>)
    requires s != [] && forall b | b >= 3 :: !ComesAgain(s, b)
    ensures FoldBlocks(CODEC, s) == [s[0]] + FoldBlocks(CODEC, s[1..]) && FoldBlocks(CODEC, []) == []
  {
    ComesAgainIsFolds(s, LargestBlock(CODEC, s, |s| / 2));
  }

  // ---- main results on texts --------------------------------------------------------------

  function FoldText(t: string): string {
    Join(FoldBlocks(CODEC, SplitLines(t)))
  }

  function UnfoldText(t: string): string {
    Join(UnfoldFrom(CODEC, [], SplitLines(t)))
  }

  lemma FoldTextSplits(t: string)
    ensures SplitLines(FoldText(t)) == FoldBlocks(CODEC, SplitLines(t))
  {
    MarkersAreGood();
    SplitGivesLines(t);
    FoldGivesLines(CODEC, SplitLines(t));
    SplitOfJoin(FoldBlocks(CODEC, SplitLines(t)));
  }

  /** Decoding the output gives what decoding the input gives; a text without markers is
      recovered exactly. */
  lemma FoldIsLossless(t: string)
    ensures UnfoldText(FoldText(t)) == UnfoldText(t)
    ensures CODEC.MarkerFree(SplitLines(t)) ==> UnfoldText(FoldText(t)) == t
  {
    var s := SplitLines(t);
    MarkersAreGood();
    FoldTextSplits(t);
    SplitGivesLines(t);
    UnfoldUndoesFold(CODEC, [], s);
    if CODEC.MarkerFree(s) {
      UnfoldOfMarkerFree(CODEC, [], s);
      assert [] + s == s;
      JoinOfSplit(t);
    }
  }

  /** Folding again and again stays decodable. */
  lemma RepeatedFoldingIsLossless(t: string, n: nat)
    ensures UnfoldText(Iterate(FoldText, t, n)) == UnfoldText(t)
  {
    forall y ensures UnfoldText(FoldText(y)) == UnfoldText(y) {
      FoldIsLossless(y);
    }
    IterationKeeps(FoldText, UnfoldText, t, n);
  }

  /** A second pass does nothing exactly when no kept block nests another one. */
  lemma FoldIsIdempotentIff(t: string)
    ensures FoldText(FoldText(t)) == FoldText(t) <==> NoNestedBlocks(CODEC, SplitLines(t))
  {
    var s := SplitLines(t);
    MarkersAreGood();
    SplitGivesLines(t);
    FoldTextSplits(t);
    FoldTextSplits(FoldText(t));
    OutputHasNothingToFold(CODEC, s);
    FoldFixpoint(CODEC, FoldBlocks(CODEC, s));
  }

  lemma DoubledNests(c: Codec, x: seq<string>, y: string)
    requires |x| >= LEAST_BLOCK && c.MarkerFree(x) && c.MarkerFree([y])
    ensures var half := x + x + [y]; !NoNestedBlocks(c, half + half)
  {
    var half := x + x + [y];
    var s := half + half;
    assert s == half + half + [] && y in [y];
    DoubledFolds(c, half, []);
    DoubledFolds(c, x, [y]);
    assert s[..|half|] == half;
  }

  /** The claimed idempotence fails on every text whose lines are twice the same: a block twice and some
      line. The block still stands twice in the copy that is kept. */
  lemma NestedBlocksWitness(x: seq<string>, y: string)
    requires |x| >= LEAST_BLOCK && CODEC.MarkerFree(x) && CODEC.MarkerFree([y])
    requires LinesOfText((x + x + [y]) + (x + x + [y]))
    ensures var t := Join((x + x + [y]) + (x + x + [y])); FoldText(FoldText(t)) != FoldText(t)
  {
    var s := (x + x + [y]) + (x + x + [y]);
    DoubledNests(CODEC, x, y);
    SplitOfJoin(s);
    FoldIsIdempotentIff(Join(s));
  }
}
