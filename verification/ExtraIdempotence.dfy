/**
  When the passes of `compress_extra` together are idempotent (engine/simplicio_compress_extra.py): on
  texts with nothing for the last two passes to do, exactly if block folding is rejected or leaves
  nothing that it would fold in a second run.
 */
module ExtraIdempotence {
  import opened Driver
  import opened ExtraPipeline
  import opened Substitution
  import opened Text
  import opened Wrappers
  import BlockFold
  import LongToken
  import NoiseFold
  import RunFold
  import TableWs

  // ---- lines of the folded text -----------------------------------------------------------

  lemma {:induction false} FewCopies(s: seq<string>, j: nat, block: seq<string>)
    requires j <= |s| && block != []
    ensures BlockFold.Copies(s, j, block) <= |s| - j
    decreases |s| - j
  {
    if BlockFold.StandsAt(s, j, block) {
      FewCopies(s, j + |block|, block);
    }
  }

  /** A marker for lines of `s` has `p`, whatever its two numbers up to `bound` are. */
  ghost predicate MarkersHave(c: BlockFold.Codec, p: string -> bool, bound: nat) {
    forall block, r: nat | block != [] && IsLine(block[|block| - 1]) && |block| <= bound && r <= bound ::
      p(c.write(block, r))
  }

  /** What holds of the lines and of the markers holds of the output. */
  lemma {:induction false} FoldKeepsAll(c: BlockFold.Codec, p: string -> bool, bound: nat, s: seq<string>)
    requires |s| <= bound && MarkersHave(c, p, bound)
    requires forall l | l in s :: IsLine(l) && p(l)
    ensures forall l | l in BlockFold.FoldBlocks(c, s) :: p(l)
    decreases |s|
  {
    if s != [] {
      var b := BlockFold.LargestBlock(c, s, |s| / 2);
      if b == 0 {
        FoldKeepsAll(c, p, bound, s[1..]);
      } else {
        var block := s[..b];
        assert BlockFold.StandsAt(s, 0, block) && IsLine(s[b - 1]);
        FewCopies(s, 0, block);
        FoldKeepsAll(c, p, bound, s[BlockFold.CopiesEnd(s, 0, block)..]);
      }
    }
  }

  /** What the output starts with: a folded block and its marker, or a line. */
  lemma FirstPiece(c: BlockFold.Codec, s: seq<string>) returns (b: nat, m: string, end: nat)
    requires c.Good() && (forall l | l in s :: IsLine(l)) && s != []
    ensures b <= end <= |s| && 0 < end && (b > 0 ==> c.read(m).Some?)
    ensures BlockFold.FoldBlocks(c, s) == s[..b] + ([m] + BlockFold.FoldBlocks(c, s[end..]))
  {
    b := BlockFold.LargestBlock(c, s, |s| / 2);
    if b == 0 {
      m, end := s[0], 1;
    } else {
      var block := s[..b];
      assert BlockFold.StandsAt(s, 0, block) && IsLine(s[b - 1]);
      m, end := c.write(block, BlockFold.Copies(s, 0, block)), BlockFold.CopiesEnd(s, 0, block);
    }
  }

  lemma LineOf<T>(block: seq<T>, m: T, rest: seq<T>, k: nat)
    requires k <= |block| + |rest|
    ensures (block + ([m] + rest))[k] == if k < |block| then block[k] else if k == |block| then m else rest[k - |block| - 1]
  {
  }

  /** Of two neighbouring lines of the output one is no marker. */
  lemma {:induction false} MarkersApart(c: BlockFold.Codec, s: seq<string>, i: nat)
    requires c.Good() && c.MarkerFree(s) && LinesOfText(s)
    requires i + 1 < |BlockFold.FoldBlocks(c, s)|
    ensures var out := BlockFold.FoldBlocks(c, s); c.read(out[i]) == None || c.read(out[i + 1]) == None
    decreases |s|
  {
    var b, m, end := FirstPiece(c, s);
    var rest := BlockFold.FoldBlocks(c, s[end..]);
    LinesTail(s, end);
    LineOf(s[..b], m, rest, i);
    LineOf(s[..b], m, rest, i + 1);
    if i == b {
      BlockFold.FoldGivesLines(c, s[end..]);
    } else if i > b {
      MarkersApart(c, s[end..], i - b - 1);
    }
  }

  /** No marker among the `n` lines from `i` on. */
  predicate Clear(c: BlockFold.Codec, s: seq<string>, i: nat, n: nat) {
    i + n <= |s| && forall k | i <= k < i + n :: c.read(s[k]) == None
  }

  /** The `n` lines of `s` from `j` on are those of `out` from `i` on. */
  predicate SameStretch(s: seq<string>, j: nat, out: seq<string>, i: nat, n: nat) {
    j + n <= |s| && i + n <= |out| && forall k | j <= k < j + n :: s[k] == out[i + (k - j)]
  }

  lemma ClearBehind(c: BlockFold.Codec, block: seq<string>, m: string, rest: seq<string>, i: nat, n: nat)
    requires 0 < i && i + n > |block| && (block != [] ==> c.read(m).Some?)
    requires Clear(c, block + ([m] + rest), i, n)
    ensures i > |block| && Clear(c, rest, i - |block| - 1, n)
  {
    var out := block + ([m] + rest);
    LineOf(block, m, rest, |block|);
    assert i > |block|;
    forall k | i - |block| - 1 <= k < i - |block| - 1 + n ensures c.read(rest[k]) == None {
      LineOf(block, m, rest, |block| + 1 + k);
      assert c.read(out[|block| + 1 + k]) == None;
    }
  }

  lemma StretchBehind(s: seq<string>, b: nat, m: string, end: nat, rest: seq<string>, k: nat, j: nat, n: nat)
    requires b <= |s| && end <= |s| && SameStretch(s[end..], j, rest, k, n)
    ensures SameStretch(s, end + j, s[..b] + ([m] + rest), b + 1 + k, n)
  {
    forall x | end + j <= x < end + j + n ensures s[x] == (s[..b] + ([m] + rest))[b + 1 + k + (x - end - j)] {
      LineOf(s[..b], m, rest, b + 1 + k + (x - end - j));
      assert s[end..][x - end] == rest[k + (x - end - j)];
    }
  }

  lemma StretchInside(s: seq<string>, b: nat, m: string, rest: seq<string>, i: nat, n: nat)
    requires b <= |s| && i + n <= b
    ensures SameStretch(s, i, s[..b] + ([m] + rest), i, n)
  {
  }

  predicate AllAreLines(s: seq<string>) {
    forall l | l in s :: IsLine(l)
  }

  lemma StretchAtHead(c: BlockFold.Codec, s: seq<string>, n: nat)
    requires c.Good() && AllAreLines(s) && Clear(c, BlockFold.FoldBlocks(c, s), 0, n)
    ensures SameStretch(s, 0, BlockFold.FoldBlocks(c, s), 0, n)
  {
    var out := BlockFold.FoldBlocks(c, s);
    BlockFold.MarkerFreePrefix(c, s, n);
    forall k | 0 <= k < n ensures s[k] == out[k] {
      assert out[..n][k] == s[..n][k];
    }
  }

  /** A stretch of the output without a marker is a stretch of the input. */
  lemma {:induction false} StretchOfInput(c: BlockFold.Codec, s: seq<string>, i: nat, n: nat) returns (j: nat)
    requires c.Good() && AllAreLines(s)
    requires 0 < n && Clear(c, BlockFold.FoldBlocks(c, s), i, n)
    ensures SameStretch(s, j, BlockFold.FoldBlocks(c, s), i, n)
    decreases |s|, 3
  {
    if i == 0 {
      StretchAtHead(c, s, n);
      j := 0;
    } else {
      var b, m, end := FirstPiece(c, s);
      j := StretchAfterHead(c, s, b, m, end, BlockFold.FoldBlocks(c, s[end..]), i, n);
    }
  }

  lemma {:induction false} StretchOfRest(c: BlockFold.Codec, s: seq<string>, end: nat, rest: seq<string>, k: nat, n: nat)
    returns (j: nat)
    requires c.Good() && AllAreLines(s)
    requires 0 < end <= |s| && rest == BlockFold.FoldBlocks(c, s[end..])
    requires 0 < n && Clear(c, rest, k, n)
    ensures SameStretch(s[end..], j, rest, k, n)
    decreases |s|, 0
  {
    j := StretchOfInput(c, s[end..], k, n);
  }

  lemma {:induction false} StretchAfterMarker(c: BlockFold.Codec, s: seq<string>, b: nat, m: string, end: nat,
                                              rest: seq<string>, k: nat, n: nat) returns (j: nat)
    requires c.Good() && AllAreLines(s)
    requires b <= end <= |s| && 0 < end && rest == BlockFold.FoldBlocks(c, s[end..])
    requires 0 < n && Clear(c, rest, k, n)
    ensures SameStretch(s, j, s[..b] + ([m] + rest), b + 1 + k, n)
    decreases |s|, 1
  {
    j := StretchOfRest(c, s, end, rest, k, n);
    StretchBehind(s, b, m, end, rest, k, j, n);
    j := end + j;
  }

  /** The same, when the first `b` lines are followed by `m` and by what the fold makes of the rest. */
  lemma {:induction false} StretchAfterHead(c: BlockFold.Codec, s: seq<string>, b: nat, m: string, end: nat,
                                            rest: seq<string>, i: nat, n: nat) returns (j: nat)
    requires c.Good() && AllAreLines(s)
    requires b <= end <= |s| && 0 < end && (b > 0 ==> c.read(m).Some?)
    requires rest == BlockFold.FoldBlocks(c, s[end..])
    requires 0 < n && 0 < i && Clear(c, s[..b] + ([m] + rest), i, n)
    ensures SameStretch(s, j, s[..b] + ([m] + rest), i, n)
    decreases |s|, 2
  {
    if i + n <= b {
      StretchInside(s, b, m, rest, i, n);
      j := i;
    } else {
      ClearBehind(c, s[..b], m, rest, i, n);
      j := StretchAfterMarker(c, s, b, m, end, rest, i - b - 1, n);
    }
  }

  // ---- the markers of the source ----------------------------------------------------------

  /** What the numbers of a block marker leave of it. */
  const MARKER_CANON: string := BlockFold.BEFORE + ([NoiseFold.NUL] + (BlockFold.BETWEEN + ([NoiseFold.NUL] + BlockFold.AFTER)))

  /** A block marker, up to its numbers. */
  predicate LooksLikeMarker(l: string) {
    NoiseFold.Canon(Content(l)) == MARKER_CANON
  }

  lemma PlainLiterals()
    ensures All(NoiseFold.IsPlain, BlockFold.BEFORE) && All(NoiseFold.IsPlain, BlockFold.BETWEEN)
    ensures All(NoiseFold.IsPlain, BlockFold.AFTER)
  {
  }

  lemma CanonOfPlain(x: string)
    requires All(NoiseFold.IsPlain, x)
    ensures NoiseFold.Canon(x) == x
  {
    NoiseFold.CanonOfLiteral(x, "");
    assert x + "" == x;
  }

  lemma NumberedTail(tail: string)
    requires TakeNumber(tail).Some?
    ensures NoiseFold.Canon(tail) == [NoiseFold.NUL] + NoiseFold.Canon(TakeNumber(tail).value.1)
  {
    assert IsDigit(tail[..Span(IsDigit, tail)][0]);
    NoiseFold.CanonOfNumber(tail);
  }

  /** Whatever is read as a marker looks like one. */
  lemma ReadLooksLikeMarker(c: string)
    requires BlockFold.ReadText(c).Some?
    ensures NoiseFold.Canon(c) == MARKER_CANON
  {
    var tail := After(BlockFold.BEFORE, c).value;
    var rest := TakeNumber(tail).value.1;
    var tail' := After(BlockFold.BETWEEN, rest).value;
    PlainLiterals();
    assert c == BlockFold.BEFORE + tail && rest == BlockFold.BETWEEN + tail';
    NoiseFold.CanonOfLiteral(BlockFold.BEFORE, tail);
    NumberedTail(tail);
    NoiseFold.CanonOfLiteral(BlockFold.BETWEEN, tail');
    NumberedTail(tail');
    CanonOfPlain(BlockFold.AFTER);
  }

  lemma MarkerReads(l: string)
    requires BlockFold.CODEC.read(l) != None
    ensures LooksLikeMarker(l)
  {
    ReadLooksLikeMarker(Content(l));
  }

  // ---- tables -----------------------------------------------------------------------------

  predicate TableFixed(l: string) {
    TableWs.MapLine(TableWs.Tighten, l) == l
  }

  lemma FixedLines(ls: seq<string>)
    requires forall l | l in ls :: TableFixed(l)
    ensures TableWs.MapLines(TableWs.Tighten, ls) == ls
  {
    forall i | 0 <= i < |ls| ensures TableWs.MapLines(TableWs.Tighten, ls)[i] == ls[i] {
      assert TableFixed(ls[i]);
    }
  }

  lemma TableLines(t: string)
    ensures forall l | l in SplitLines(TableWs.TableText(t)) :: TableFixed(l)
  {
    var ls := SplitLines(t);
    var ms := TableWs.MapLines(TableWs.Tighten, ls);
    SplitGivesLines(t);
    forall l | IsLine(l) ensures TableWs.Replaces(TableWs.Tighten, TableWs.MapLine(TableWs.Tighten, l), l) {
      TableWs.MappedLine(l);
    }
    TableWs.MappedLines(TableWs.Tighten, ls);
    SplitOfJoin(ms);
    forall l | l in ms ensures TableFixed(l) {
      var i :| 0 <= i < |ms| && ms[i] == l;
      assert TableWs.MapLines(TableWs.Tighten, ms)[i] == TableWs.MapLine(TableWs.Tighten, ms[i]);
    }
  }

  lemma NoRow(c: string)
    requires c != "" && c[0] == ELLIPSIS
    ensures !TableWs.IsRow(c)
  {
    forall i | 0 < i < |c| ensures !All(IsSpace, c[..i]) {
      assert c[..i][0] == ELLIPSIS;
    }
  }

  lemma MarkerParts(block: seq<string>, r: nat)
    requires block != [] && IsLine(block[|block| - 1])
    ensures var m := BlockFold.WriteMarker(block, r);
            && Content(m) == BlockFold.MarkerText(|block|, r)
            && m == Content(m) + EolFor(block[|block| - 1])
            && Content(m) != "" && Content(m)[0] == ELLIPSIS
  {
    BlockFold.MarkerReadsBack(|block|, r);
    MarkerLine(BlockFold.MarkerText(|block|, r), block[|block| - 1]);
  }

  lemma MarkersAreFixed(bound: nat)
    ensures MarkersHave(BlockFold.CODEC, TableFixed, bound)
  {
    forall block, r: nat | block != [] && IsLine(block[|block| - 1]) && |block| <= bound && r <= bound
      ensures TableFixed(BlockFold.CODEC.write(block, r))
    {
      MarkerParts(block, r);
      NoRow(BlockFold.MarkerText(|block|, r));
    }
  }

  /** Folding blocks gives the table pass nothing to do. */
  lemma TablesStayTight(t: string)
    ensures var v := BlockFold.FoldText(TableWs.TableText(t)); TableWs.TableText(v) == v
  {
    var u := TableWs.TableText(t);
    var s := SplitLines(u);
    SplitGivesLines(u);
    TableLines(t);
    MarkersAreFixed(|s|);
    FoldKeepsAll(BlockFold.CODEC, TableFixed, |s|, s);
    FixedLines(BlockFold.FoldBlocks(BlockFold.CODEC, s));
    BlockFold.FoldTextSplits(u);
  }

  // ---- tokens -----------------------------------------------------------------------------

  predicate TokenFree(l: string) {
    NoMatch(LongToken.TokenLen, l)
  }

  lemma SpaceSeparates(a: string, w: string)
    requires a != "" && IsSpace(a[|a| - 1])
    ensures TokenFree(a + w) <==> TokenFree(a) && TokenFree(w)
  {
    var b, x := a[..|a| - 1], a[|a| - 1];
    assert a == b + [x] && a + w == b + ([x] + w);
    LongToken.NoTokenInAppend(b, [x] + w);
    LongToken.NoTokenInAppend(b, [x]);
    LongToken.SpaceFirst(x, w);
    LongToken.SpaceFirst(x, "");
    assert [x] + "" == [x];
  }

  /** A text has no long token exactly if none of its lines has one. */
  lemma {:induction false} TokensByLine(ls: seq<string>)
    requires LinesOfText(ls)
    ensures TokenFree(Join(ls)) <==> forall l | l in ls :: TokenFree(l)
  {
    if |ls| == 1 {
      assert Join(ls) == ls[0] + "" == ls[0];
    } else if ls != [] {
      LinesTail(ls, 1);
      TokensByLine(ls[1..]);
      assert Follows(ls[0], ls[1]);
      SpaceSeparates(ls[0], Join(ls[1..]));
      assert forall l | l in ls :: l == ls[0] || l in ls[1..];
    }
  }

  /** Below this number a marker has no token of 201 characters. */
  const BOUND: nat := Pow10(179)

  predicate EndsInSpace(a: string) {
    a != "" && IsSpace(a[|a| - 1])
  }

  lemma ShortPartsAreFree(x: string, y: string, z: string)
    requires |x| <= 200 && |y| <= 200 && |z| <= 200 && EndsInSpace(x) && EndsInSpace(y)
    ensures TokenFree(x + (y + z))
  {
    LongToken.ShortHasNoToken(x);
    LongToken.ShortHasNoToken(y);
    LongToken.ShortHasNoToken(z);
    SpaceSeparates(y, z);
    SpaceSeparates(x, y + z);
  }

  lemma RegroupMarker(a: string, b: string, c: string, d: string, e: string)
    ensures a + b + (c + d + e) == a + ((b + c) + (d + e))
  {
  }

  lemma MarkerLiterals()
    ensures |BlockFold.BEFORE| == 13 && |BlockFold.BETWEEN| == 21 && |BlockFold.AFTER| == 2
    ensures EndsInSpace(BlockFold.BEFORE) && EndsInSpace(BlockFold.BETWEEN)
  {
  }

  lemma MarkerTextIsFree(b: nat, r: nat)
    requires |Dec(b)| <= 179 && |Dec(r)| <= 179
    ensures TokenFree(BlockFold.MarkerText(b, r))
  {
    MarkerLiterals();
    var y, z := Dec(b) + BlockFold.BETWEEN, Dec(r) + BlockFold.AFTER;
    assert y[|y| - 1] == BlockFold.BETWEEN[|BlockFold.BETWEEN| - 1];
    ShortPartsAreFree(BlockFold.BEFORE, y, z);
    RegroupMarker(BlockFold.BEFORE, Dec(b), BlockFold.BETWEEN, Dec(r), BlockFold.AFTER);
  }

  lemma MarkersAreFree(bound: nat)
    requires bound < BOUND
    ensures MarkersHave(BlockFold.CODEC, TokenFree, bound)
  {
    forall block, r: nat | block != [] && IsLine(block[|block| - 1]) && |block| <= bound && r <= bound
      ensures TokenFree(BlockFold.CODEC.write(block, r))
    {
      var l := block[|block| - 1];
      DecimalLength(|block|, 179);
      DecimalLength(r, 179);
      MarkerTextIsFree(|block|, r);
      EolShape(l);
      LongToken.ShortHasNoToken(EolFor(l));
      LongToken.NoTokenInAppend(BlockFold.MarkerText(|block|, r), EolFor(l));
    }
  }

  lemma {:induction false} LinesAreFew(ls: seq<string>)
    requires forall l | l in ls :: IsLine(l)
    ensures |ls| <= |Join(ls)|
  {
    if ls != [] {
      LinesAreFew(ls[1..]);
      assert IsLine(ls[0]);
    }
  }

  lemma FewLines(u: string)
    ensures |SplitLines(u)| <= |u| && forall l | l in SplitLines(u) :: IsLine(l)
  {
    SplitGivesLines(u);
    LinesAreFew(SplitLines(u));
    JoinOfSplit(u);
  }

  /** Folding blocks makes no token to elide. */
  lemma TokensStayShort(u: string)
    requires |u| < BOUND && TokenFree(u)
    ensures TokenFree(BlockFold.FoldText(u))
  {
    var s := SplitLines(u);
    FewLines(u);
    SplitGivesLines(u);
    JoinOfSplit(u);
    TokensByLine(s);
    MarkersAreFree(|s|);
    FoldKeepsAll(BlockFold.CODEC, TokenFree, |s|, s);
    BlockFold.MarkersAreGood();
    BlockFold.FoldGivesLines(BlockFold.CODEC, s);
    TokensByLine(BlockFold.FoldBlocks(BlockFold.CODEC, s));
  }

  // ---- lines equal up to their numbers ----------------------------------------------------

  /** A marker, or a line that does not look like one. */
  predicate MarkerOrOther(l: string) {
    BlockFold.CODEC.read(l) == None ==> !LooksLikeMarker(l)
  }

  lemma MarkersAreMarkers(bound: nat)
    ensures MarkersHave(BlockFold.CODEC, MarkerOrOther, bound)
  {
    BlockFold.MarkersAreGood();
  }

  predicate NoneLooksLikeMarker(s: seq<string>) {
    forall l | l in s :: !LooksLikeMarker(l)
  }

  lemma LooksAndReads(s: seq<string>)
    requires NoneLooksLikeMarker(s)
    ensures BlockFold.CODEC.MarkerFree(s)
  {
    forall l | l in s ensures BlockFold.CODEC.read(l) == None {
      if BlockFold.CODEC.read(l) != None {
        MarkerReads(l);
      }
    }
  }

  lemma RunLines(rule: RunFold.Rule, s: seq<string>, k: string)
    requires s != [] && RunFold.FoldsAt(rule, s) && rule.key(s[0]) == Some(k)
    ensures rule.least <= |s| && forall i | 0 < i < rule.least :: rule.same(k, s[i])
  {
    forall i | 0 < i < rule.least ensures rule.same(k, s[i]) {
      assert s[1..][i - 1] == s[i];
    }
  }

  lemma RunInFront(rule: RunFold.Rule, s: seq<string>)
    requires 0 < rule.least <= |s| && rule.key(s[0]).Some?
    requires forall i | 0 < i < rule.least :: rule.same(rule.key(s[0]).value, s[i])
    ensures RunFold.FoldsAt(rule, s)
  {
    var f := RunFold.Followers(rule, rule.key(s[0]).value, s[1..]);
    assert f < |s| - 1 ==> s[1..][f] == s[f + 1];
  }

  /** A run of lines that do not look like a marker. */
  lemma RunHasNoMarker(repr: string -> string, out: seq<string>, i: nat)
    requires forall l | l in out :: MarkerOrOther(l)
    requires forall k | 0 < k < |out| :: BlockFold.CODEC.read(out[k - 1]) == None || BlockFold.CODEC.read(out[k]) == None
    requires i < |out| && RunFold.FoldsAt(NoiseFold.NoiseRule(repr), out[i..])
    ensures Clear(BlockFold.CODEC, out, i, 8)
  {
    var rule := NoiseFold.NoiseRule(repr);
    var key := rule.key(out[i..][0]).value;
    RunLines(rule, out[i..], key);
    forall k | i <= k < i + 8 ensures NoiseFold.Canon(Content(out[k])) == key {
      if k > i {
        assert out[i..][k - i] == out[k];
        assert rule.same(key, out[k]) == NoiseFold.Same(key, out[k]);
      }
    }
    var one := if BlockFold.CODEC.read(out[i]) == None then i else i + 1;
    assert MarkerOrOther(out[one]);
    forall k | i <= k < i + 8 ensures BlockFold.CODEC.read(out[k]) == None {
      if BlockFold.CODEC.read(out[k]) != None {
        MarkerReads(out[k]);
      }
    }
  }

  lemma RunMoves(rule: RunFold.Rule, out: seq<string>, i: nat, s: seq<string>, j: nat)
    requires 0 < rule.least && SameStretch(s, j, out, i, rule.least)
    requires RunFold.FoldsAt(rule, out[i..])
    ensures RunFold.FoldsAt(rule, s[j..])
  {
    var x, y, n := out[i..], s[j..], rule.least;
    forall k | 0 <= k < n ensures x[k] == y[k] {
      assert s[j + k] == out[i + (j + k - j)];
    }
    RunLines(rule, x, rule.key(x[0]).value);
    RunInFront(rule, y);
  }

  lemma NoRunInOutput(repr: string -> string, s: seq<string>, i: nat)
    requires LinesOfText(s) && NoneLooksLikeMarker(s) && RunFold.Settled(NoiseFold.NoiseRule(repr), s)
    requires i < |BlockFold.FoldBlocks(BlockFold.CODEC, s)|
    ensures !RunFold.FoldsAt(NoiseFold.NoiseRule(repr), BlockFold.FoldBlocks(BlockFold.CODEC, s)[i..])
  {
    var c, rule := BlockFold.CODEC, NoiseFold.NoiseRule(repr);
    var out := BlockFold.FoldBlocks(c, s);
    if RunFold.FoldsAt(rule, out[i..]) {
      BlockFold.MarkersAreGood();
      LooksAndReads(s);
      MarkersAreMarkers(|s|);
      FoldKeepsAll(c, MarkerOrOther, |s|, s);
      forall k | 0 < k < |out| ensures c.read(out[k - 1]) == None || c.read(out[k]) == None {
        MarkersApart(c, s, k - 1);
      }
      RunHasNoMarker(repr, out, i);
      var j := StretchOfInput(c, s, i, 8);
      RunMoves(rule, out, i, s, j);
      RunUnsettles(rule, s, j);
    }
  }

  lemma RunUnsettles(rule: RunFold.Rule, s: seq<string>, j: nat)
    requires j < |s| && RunFold.FoldsAt(rule, s[j..])
    ensures !RunFold.Settled(rule, s)
  {
  }

  /** Folding blocks makes no run of lines equal up to their numbers. */
  lemma NoiseStaysSettled(repr: string -> string, u: string)
    requires NoneLooksLikeMarker(SplitLines(u)) && RunFold.Settled(NoiseFold.NoiseRule(repr), SplitLines(u))
    ensures var v := BlockFold.FoldText(u); NoiseFold.NoiseText(repr, v) == v
  {
    var s := SplitLines(u);
    var out := BlockFold.FoldBlocks(BlockFold.CODEC, s);
    SplitGivesLines(u);
    forall i | 0 <= i < |out| ensures !RunFold.FoldsAt(NoiseFold.NoiseRule(repr), out[i..]) {
      NoRunInOutput(repr, s, i);
    }
    RunFold.FoldOfSettled(NoiseFold.NoiseRule(repr), out);
    BlockFold.FoldTextSplits(u);
  }

  // ---- the passes together ----------------------------------------------------------------

  /** There is nothing for the last two passes to do, and no line looks like a block marker. */
  predicate Calm(repr: string -> string, u: string) {
    && |u| < BOUND
    && NoMatch(LongToken.TokenLen, u)
    && RunFold.Settled(NoiseFold.NoiseRule(repr), SplitLines(u))
    && NoneLooksLikeMarker(SplitLines(u))
  }

  lemma CalmIsSettled(repr: string -> string, u: string)
    requires Calm(repr, u)
    ensures LongToken.Elide(u) == u && NoiseFold.NoiseText(repr, u) == u
    ensures var v := BlockFold.FoldText(u); LongToken.Elide(v) == v && NoiseFold.NoiseText(repr, v) == v
  {
    var v := BlockFold.FoldText(u);
    TokensStayShort(u);
    SubOfNoMatch(LongToken.TokenLen, LongToken.Marker, u);
    SubOfNoMatch(LongToken.TokenLen, LongToken.Marker, v);
    NoiseStaysSettled(repr, u);
    RunFold.FoldOfSettled(NoiseFold.NoiseRule(repr), SplitLines(u));
    JoinOfSplit(u);
  }

  /** One run on such a text folds blocks, if that is shorter, and does nothing else. */
  lemma OneRun(repr: string -> string, t: string)
    requires Calm(repr, TableWs.TableText(t))
    ensures Compressed(ExtraAlgos(repr), t) == Step(BLOCKS, TableWs.TableText(t))
  {
    var u := TableWs.TableText(t);
    TableWs.TableTextIsShorter(t);
    CalmIsSettled(repr, u);
    CompressedIsRunAll(ExtraAlgos(repr), t);
    RunAllOfFour(TABLES, BLOCKS, TOKENS, Noise(repr), t);
    assert Step(TABLES, t) == u;
  }

  lemma OnlyBlocksApply(repr: string -> string, t: string)
    requires Calm(repr, TableWs.TableText(t))
    ensures var v := Step(BLOCKS, TableWs.TableText(t));
            !Applies(TABLES, v) && !Applies(TOKENS, v) && !Applies(Noise(repr), v)
  {
    CalmIsSettled(repr, TableWs.TableText(t));
    TablesStayTight(t);
    TableWs.TableTextIsIdempotent(t);
  }

  lemma FourPasses(a: Pass, b: Pass, c: Pass, d: Pass, v: string)
    requires !Applies(a, v) && !Applies(c, v) && !Applies(d, v)
    ensures Compressed([a, b, c, d], v) == v <==> !Applies(b, v)
  {
    FixpointIff([a, b, c, d], v);
    assert [a, b, c, d][1] == b;
  }

  /** Main result: on a text that, its tables tightened, has nothing for the last two passes to do, the
      passes are idempotent exactly if block folding is rejected or would be on what it gives. */
  lemma ExtraPassesAreIdempotentIff(repr: string -> string, t: string)
    requires Calm(repr, TableWs.TableText(t))
    ensures var ps, u := ExtraAlgos(repr), TableWs.TableText(t);
            Compressed(ps, Compressed(ps, t)) == Compressed(ps, t)
            <==> !Applies(BLOCKS, u) || !Applies(BLOCKS, BlockFold.FoldText(u))
  {
    var u := TableWs.TableText(t);
    OneRun(repr, t);
    OnlyBlocksApply(repr, t);
    FourPasses(TABLES, BLOCKS, TOKENS, Noise(repr), Step(BLOCKS, u));
  }

  /** In particular they are if no block that is kept nests another one. */
  lemma ExtraPassesAreIdempotent(repr: string -> string, t: string)
    requires Calm(repr, TableWs.TableText(t))
    requires BlockFold.NoNestedBlocks(BlockFold.CODEC, SplitLines(TableWs.TableText(t)))
    ensures var ps := ExtraAlgos(repr); Compressed(ps, Compressed(ps, t)) == Compressed(ps, t)
  {
    ExtraPassesAreIdempotentIff(repr, t);
    BlockFold.FoldIsIdempotentIff(TableWs.TableText(t));
  }
}
