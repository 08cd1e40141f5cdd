/**
  The passes of `compress_extra` together (engine/simplicio_compress_extra.py): eliding tokens can make
  lines equal that block folding, an earlier pass, then folds in a second run.
 */
module ExtraPipeline {
  import opened Driver
  import opened RunFold
  import opened Text
  import opened Wrappers
  import BlockFold
  import LongToken
  import NoiseFold
  import TableWs

  const TABLES: Pass := Pass("markdown_table_ws", (t: string) => Some(TableWs.TableText(t)))
  const BLOCKS: Pass := Pass("repeated_block_fold", (t: string) => Some(BlockFold.FoldText(t)))
  const TOKENS: Pass := Pass("long_token_elide", (t: string) => Some(LongToken.Elide(t)))

  function Noise(repr: string -> string): Pass {
    Pass("numbered_noise_fold", (t: string) => Some(NoiseFold.NoiseText(repr, t)))
  }

  /** `EXTRA_ALGOS` */
  function ExtraAlgos(repr: string -> string): seq<Pass> {
    [TABLES, BLOCKS, TOKENS, Noise(repr)]
  }

  /** The passes in their order, and the text function each of them runs. */
  lemma PassesAre(repr: string -> string, t: string)
    ensures var ps := ExtraAlgos(repr);
            && |ps| == 4
            && Names(ps) == ["markdown_table_ws", "repeated_block_fold", "long_token_elide", "numbered_noise_fold"]
            && ps[0].run(t) == Some(TableWs.TableText(t)) && ps[1].run(t) == Some(BlockFold.FoldText(t))
            && ps[2].run(t) == Some(LongToken.Elide(t)) && ps[3].run(t) == Some(NoiseFold.NoiseText(repr, t))
  {
    NamesAre(ExtraAlgos(repr),
             ["markdown_table_ws", "repeated_block_fold", "long_token_elide", "numbered_noise_fold"]);
  }

  // ---- six lines of one long token each ---------------------------------------------------

  predicate IsTokenChar(c: char) {
    !IsSpace(c) && c != '|'
  }

  /** A token just long enough to be elided. */
  predicate IsLongToken(x: string) {
    |x| == 201 && All(IsTokenChar, x)
  }

  /** Every token on a line of its own. */
  function Closed(xs: seq<string>): (ls: seq<string>)
    ensures |ls| == |xs| && forall i | 0 <= i < |xs| :: ls[i] == xs[i] + "\n"
  {
    if xs == [] then [] else [xs[0] + "\n"] + Closed(xs[1..])
  }

  const ELIDED: string := Numbered(LongToken.BEFORE, 201, LongToken.AFTER)

  lemma TokenLine(x: string)
    requires IsLongToken(x)
    ensures IsLine(x + "\n") && Content(x + "\n") == x && !TableWs.IsRow(x)
  {
    assert forall i | 0 <= i < |x| :: IsTokenChar(x[i]) && !IsBreak(x[i]) && x[i] != '|';
    LineLenOfPlain(x, "\n");
    ContentOfAppend(x, "\n");
  }

  lemma ClosedIsText(xs: seq<string>)
    requires forall i | 0 <= i < |xs| :: IsLine(xs[i] + "\n")
    ensures LinesOfText(Closed(xs)) && SplitLines(Join(Closed(xs))) == Closed(xs)
  {
    ClosedLinesAreText(Closed(xs));
    SplitOfJoin(Closed(xs));
  }

  lemma TablesStay(xs: seq<string>)
    requires forall i | 0 <= i < |xs| :: IsLongToken(xs[i])
    ensures TableWs.TableText(Join(Closed(xs))) == Join(Closed(xs))
  {
    forall i | 0 <= i < |xs| ensures IsLine(xs[i] + "\n") && TableWs.MapLine(TableWs.Tighten, xs[i] + "\n") == xs[i] + "\n" {
      TokenLine(xs[i]);
    }
    ClosedIsText(xs);
    assert TableWs.MapLines(TableWs.Tighten, Closed(xs)) == Closed(xs);
  }

  lemma NoBlockAtHead(c: BlockFold.Codec, s: seq<string>, b: nat)
    requires Distinct(s)
    ensures !BlockFold.FoldsAt(c, s, b)
  {
    if BlockFold.LEAST_BLOCK <= b <= |s| / 2 {
      assert s[..b][0] == s[0] && s[b..2 * b][0] == s[b];
    }
  }

  /** Different lines hold no block that comes again. */
  lemma {:induction false} DistinctLinesStay(c: BlockFold.Codec, s: seq<string>)
    requires Distinct(s)
    ensures BlockFold.NothingToFold(c, s)
  {
    if s != [] {
      forall b: nat ensures !BlockFold.FoldsAt(c, s, b) {
        NoBlockAtHead(c, s, b);
      }
      DistinctLinesStay(c, s[1..]);
    }
  }

  lemma ClosedAreDistinct(xs: seq<string>)
    requires Distinct(xs)
    ensures Distinct(Closed(xs))
  {
    var ls := Closed(xs);
    forall i, j | 0 <= i < j < |ls| ensures ls[i] != ls[j] {
      assert xs[i] == ls[i][..|ls[i]| - 1] && xs[j] == ls[j][..|ls[j]| - 1];
    }
  }

  lemma BlocksStay(ls: seq<string>)
    requires LinesOfText(ls) && Distinct(ls)
    ensures BlockFold.FoldText(Join(ls)) == Join(ls)
  {
    SplitOfJoin(ls);
    DistinctLinesStay(BlockFold.CODEC, ls);
    BlockFold.FoldFixpoint(BlockFold.CODEC, ls);
  }

  lemma TokenIsElided(x: string, rest: string)
    requires IsLongToken(x)
    ensures LongToken.Elide(x + "\n" + rest) == ELIDED + "\n" + LongToken.Elide(rest)
  {
    var t := x + "\n" + rest;
    assert t[..201] == x && t[201] == '\n';
    forall i | 0 <= i < 201 ensures NotSpace(t[..201][i]) {
      assert IsTokenChar(x[i]);
    }
    SpanUnique(NotSpace, t, 201);
    var u := t[201..];
    assert u[0] == '\n' && u[1..] == rest;
    SpanUnique(NotSpace, u, 0);
    assert LongToken.Elide(u) == ['\n'] + LongToken.Elide(rest);
    Regroup(ELIDED, "\n", LongToken.Elide(rest));
  }

  lemma {:induction false} TokensAreElided(xs: seq<string>)
    requires forall i | 0 <= i < |xs| :: IsLongToken(xs[i])
    ensures LongToken.Elide(Join(Closed(xs))) == Join(Copies(ELIDED + "\n", |xs|))
  {
    if xs != [] {
      TokensAreElided(xs[1..]);
      TokenIsElided(xs[0], Join(Closed(xs[1..])));
      assert Closed(xs)[1..] == Closed(xs[1..]);
      assert Copies(ELIDED + "\n", |xs|)[1..] == Copies(ELIDED + "\n", |xs| - 1);
    }
  }

  lemma {:induction false} JoinOfClosed(xs: seq<string>)
    requires forall i | 0 <= i < |xs| :: |xs[i]| == 201
    ensures |Join(Closed(xs))| == 202 * |xs|
  {
    if xs != [] {
      JoinOfClosed(xs[1..]);
      assert Closed(xs)[1..] == Closed(xs[1..]);
    }
  }

  lemma ElidedLine()
    ensures |ELIDED| == 24 && ELIDED[0] == '<' && NoBreaks(ELIDED)
    ensures IsLine(ELIDED + "\n") && Content(ELIDED + "\n") == ELIDED
  {
    LongToken.MarkerLength(201);
    DecimalLength(201, 3);
    DecimalLength(201, 2);
    assert Pow10(3) == 10 * Pow10(2) && Pow10(2) == 10 * Pow10(1) && Pow10(1) == 10 * Pow10(0);
    ElidedLiterals();
    NoBreaksInNumbered(LongToken.BEFORE, 201, LongToken.AFTER);
    LineLenOfPlain(ELIDED, "\n");
    ContentOfAppend(ELIDED, "\n");
  }

  lemma ElidedLiterals()
    ensures NoBreaks(LongToken.BEFORE) && NoBreaks(LongToken.AFTER)
  {
  }

  lemma SixLines()
    ensures var ls := Copies(ELIDED + "\n", 6); LinesOfText(ls) && SplitLines(Join(ls)) == ls && |Join(ls)| == 150
  {
    ElidedLine();
    CopiesAreLines(ELIDED + "\n", 6);
    SplitOfJoin(Copies(ELIDED + "\n", 6));
    JoinOfCopies(ELIDED + "\n", 6);
  }

  lemma NoiseStays(repr: string -> string, t: string)
    requires |SplitLines(t)| < 8
    ensures NoiseFold.NoiseText(repr, t) == t
  {
    FewLinesStay(NoiseFold.NoiseRule(repr), SplitLines(t));
    JoinOfSplit(t);
  }

  /** Six equal lines are a block of three twice. */
  lemma EqualLinesFold(c: BlockFold.Codec, x: string)
    requires c.read(x) == None
    ensures BlockFold.FoldBlocks(c, Copies(x, 6)) == [x, x, x, c.write([x, x, x], 2)]
  {
    var s := Copies(x, 6);
    assert s[..3] == [x, x, x] && s[3..6] == [x, x, x];
    assert BlockFold.FoldsAt(c, s, 3);
    assert BlockFold.LargestBlock(c, s, 3) == 3;
    assert BlockFold.StandsAt(s, 0, s[..3]) && BlockFold.StandsAt(s, 3, s[..3]);
    assert BlockFold.Copies(s, 6, s[..3]) == 0;
    assert BlockFold.Copies(s, 3, s[..3]) == 1;
    assert s[6..] == [];
  }

  lemma BlockMarkerLength()
    ensures |BlockFold.MarkerText(3, 2)| == 38
  {
    assert |Dec(3)| == 1 && |Dec(2)| == 1;
    assert |BlockFold.BEFORE| == 13 && |BlockFold.BETWEEN| == 21 && |BlockFold.AFTER| == 2;
    assert |Numbered(BlockFold.BETWEEN, 2, BlockFold.AFTER)| == 24;
  }

  lemma ElidedIsNoMarker()
    ensures BlockFold.ReadMarker(ELIDED + "\n") == None
  {
    ElidedLine();
    assert BlockFold.BEFORE[0] == ELLIPSIS;
  }

  lemma BlockMarkerIs(m: string)
    requires m == ELIDED + "\n"
    ensures BlockFold.WriteMarker([m, m, m], 2) == BlockFold.MarkerText(3, 2) + "\n"
  {
    ElidedLine();
    assert m[|ELIDED|..] == "\n";
  }

  lemma SixLinesFold()
    ensures var u := Join(Copies(ELIDED + "\n", 6)); |BlockFold.FoldText(u)| < |u|
  {
    var m := ELIDED + "\n";
    ElidedLine();
    SixLines();
    ElidedIsNoMarker();
    EqualLinesFold(BlockFold.CODEC, m);
    BlockMarkerIs(m);
    BlockMarkerLength();
    JoinOfFour(m, BlockFold.WriteMarker([m, m, m], 2));
  }

  lemma JoinOfFour(m: string, marker: string)
    ensures |Join([m, m, m, marker])| == 3 * |m| + |marker|
  {
    assert [m, m, m, marker] == [m] + ([m] + ([m] + ([marker] + [])));
    JoinOfCons(m, [m] + ([m] + ([marker] + [])));
    JoinOfCons(m, [m] + ([marker] + []));
    JoinOfCons(m, [marker] + []);
    JoinOfCons(marker, []);
  }

  lemma RunAllOfFour(a: Pass, b: Pass, c: Pass, d: Pass, t: string)
    ensures RunAll([a, b, c, d], t) == Step(d, Step(c, Step(b, Step(a, t))))
  {
    assert [a, b, c, d] == [a] + ([b] + ([c] + ([d] + [])));
    RunAllCons(a, [b] + ([c] + ([d] + [])), t);
    RunAllCons(b, [c] + ([d] + []), Step(a, t));
    RunAllCons(c, [d] + [], Step(b, Step(a, t)));
    RunAllCons(d, [], Step(c, Step(b, Step(a, t))));
  }

  lemma FirstSteps(xs: seq<string>)
    requires |xs| == 6 && Distinct(xs) && forall i | 0 <= i < 6 :: IsLongToken(xs[i])
    ensures var t := Join(Closed(xs)); Step(TOKENS, Step(BLOCKS, Step(TABLES, t))) == Join(Copies(ELIDED + "\n", 6))
  {
    TablesStay(xs);
    forall i | 0 <= i < |xs| ensures IsLine(xs[i] + "\n") {
      TokenLine(xs[i]);
    }
    ClosedIsText(xs);
    ClosedAreDistinct(xs);
    BlocksStay(Closed(xs));
    TokensAreElided(xs);
    JoinOfClosed(xs);
    SixLines();
  }

  lemma FirstRun(repr: string -> string, xs: seq<string>)
    requires |xs| == 6 && Distinct(xs) && forall i | 0 <= i < 6 :: IsLongToken(xs[i])
    ensures Compressed(ExtraAlgos(repr), Join(Closed(xs))) == Join(Copies(ELIDED + "\n", 6))
  {
    var t, u := Join(Closed(xs)), Join(Copies(ELIDED + "\n", 6));
    FirstSteps(xs);
    SixLines();
    NoiseStays(repr, u);
    CompressedIsRunAll(ExtraAlgos(repr), t);
    RunAllOfFour(TABLES, BLOCKS, TOKENS, Noise(repr), t);
  }

  /** Main result: on any six different tokens of 201 characters, each on a line of its own, the second
      pipeline needs a second run. */
  lemma ExtraPassesAreNotIdempotent(repr: string -> string, xs: seq<string>)
    requires |xs| == 6 && Distinct(xs) && forall i | 0 <= i < 6 :: IsLongToken(xs[i])
    ensures var ps, t := ExtraAlgos(repr), Join(Closed(xs)); Compressed(ps, Compressed(ps, t)) != Compressed(ps, t)
  {
    var ps := ExtraAlgos(repr);
    FirstRun(repr, xs);
    SixLinesFold();
    NotYetFixed(ps, 1, Join(Copies(ELIDED + "\n", 6)));
  }

  lemma NotYetFixed(ps: seq<Pass>, i: nat, u: string)
    requires i < |ps| && Applies(ps[i], u)
    ensures Compressed(ps, u) != u
  {
    FixpointIff(ps, u);
  }
}
