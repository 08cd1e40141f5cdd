/**
  `numbered_noise_fold` (engine/simplicio_compress_extra.py): eight or more lines that are equal
  up to their numbers become one marker. Python's `repr` is a parameter.
 */
module NoiseFold {
  import opened RunFold
  import opened Text
  import opened TextFold
  import opened Wrappers

  const NUL: char := '\0'

  /** `_canon`: every run of digits becomes one NUL. */
  function Canon(c: string): string
    decreases |c|
  {
    if c == "" then ""
    else if IsDigit(c[0]) then [NUL] + Canon(c[Span(IsDigit, c)..])
    else [c[0]] + Canon(c[1..])
  }

  const BEFORE: string := [ELLIPSIS] + " ("
  const AFTER: string := " near-identical lines: "

  predicate EndsInQuote(s: string) {
    |s| >= 2 && s[|s| - 2..] == "')"
  }

  /** `_NOISE_MARKER_RE`: a marker whose sample is in single quotes. */
  predicate IsMarker(c: string) {
    match After(BEFORE, c)
    case None => false
    case Some(tail) =>
      match TakeNumber(tail)
      case None => false
      case Some((_, rest)) =>
        match After(AFTER + "'", rest)
        case None => false
        case Some(sample) => EndsInQuote(sample)
  }

  function Key(l: string): Option<string> {
    var c := Content(l);
    if NUL !in Canon(c) || c == "" || IsMarker(c) then None else Some(Canon(c))
  }

  predicate Same(k: string, l: string) {
    Canon(Content(l)) == k
  }

  /** `canon.replace("\x00", "…")` */
  function Sample(k: string): string {
    if k == "" then "" else [if k[0] == NUL then ELLIPSIS else k[0]] + Sample(k[1..])
  }

  function MarkerText(repr: string -> string, k: string, n: nat): string {
    Numbered(BEFORE, n, AFTER) + repr(Sample(k)) + ")"
  }

  function Marker(repr: string -> string, first: string, k: string, run: nat): string {
    MarkerText(repr, k, run) + EolFor(first)
  }

  function NoiseRule(repr: string -> string): Rule {
    Rule(Key, Same, 8, false, (first: string, k: string, run: nat) => Marker(repr, first, k, run))
  }

  function NoiseText(repr: string -> string, t: string): string {
    Join(Fold(NoiseRule(repr), SplitLines(t)))
  }

  method NumberedNoiseFold(repr: string -> string, text: string) returns (r: string)
    ensures r == NoiseText(repr, text)
  {
    var lines := SplitLines(text);
    if |lines| < 8 {
      FewLinesStay(NoiseRule(repr), lines);
      JoinOfSplit(text);
      return text;
    }
    var out := FoldRuns(NoiseRule(repr), lines);
    r := Join(out);
  }

  // ---- what the key forgets ---------------------------------------------------------------

  /** Only digits are replaced, and only by NUL. */
  lemma {:induction false} CanonKeepsTheRest(c: string, x: char)
    requires !IsDigit(x) && x != NUL
    ensures x in Canon(c) <==> x in c
    decreases |c|
  {
    if c == "" {
    } else if IsDigit(c[0]) {
      var d := Span(IsDigit, c);
      CanonKeepsTheRest(c[d..], x);
      assert c == c[..d] + c[d..];
      assert x !in c[..d];
    } else {
      CanonKeepsTheRest(c[1..], x);
      assert c == [c[0]] + c[1..];
    }
  }

  lemma {:induction false} SampleKeepsTheRest(k: string, x: char)
    requires x != ELLIPSIS
    ensures x in Sample(k) <==> x in k && x != NUL
  {
    if k != "" {
      SampleKeepsTheRest(k[1..], x);
      assert k == [k[0]] + k[1..];
    }
  }

  predicate IsPlain(c: char) { !IsDigit(c) && c != NUL }

  /** A literal without digits can be read off the key. */
  lemma {:induction false} CanonOfLiteral(x: string, s: string)
    requires All(IsPlain, x)
    ensures Canon(x + s) == x + Canon(s)
  {
    if x == "" {
      assert x + s == s;
    } else {
      assert IsPlain(x[0]) && (x + s)[1..] == x[1..] + s;
      CanonOfLiteral(x[1..], s);
    }
  }

  lemma {:induction false} LiteralOfCanon(x: string, y: string, s: string)
    requires All(IsPlain, x) && NUL !in s && Canon(s) == x + y
    ensures x <= s && Canon(s[|x|..]) == y
  {
    if x == "" {
      assert s[0..] == s && x + y == y;
    } else {
      assert IsPlain(x[0]) && (x + y)[0] == x[0] && (x + y)[1..] == x[1..] + y;
      assert s != "" && !IsDigit(s[0]) && Canon(s)[1..] == Canon(s[1..]);
      LiteralOfCanon(x[1..], y, s[1..]);
      assert s[1..][|x| - 1..] == s[|x|..];
    }
  }

  lemma CanonOfNumber(s: string)
    requires s != "" && IsDigit(s[0])
    ensures Canon(s) == [NUL] + Canon(s[Span(IsDigit, s)..])
  {
  }

  lemma CanonStart(s: string)
    requires s != ""
    ensures Canon(s) != "" && Canon(s)[0] == if IsDigit(s[0]) then NUL else s[0]
  {
  }

  lemma NumberOfCanon(y: string, s: string)
    requires NUL !in s && Canon(s) == [NUL] + y
    ensures Span(IsDigit, s) > 0 && Canon(s[Span(IsDigit, s)..]) == y
  {
    CanonIsEmpty(s);
    CanonStart(s);
    assert s[0] in s;
    assert Canon(s)[1..] == Canon(s[Span(IsDigit, s)..]);
  }

  /** So can the last characters, if they are no digits. */
  lemma {:induction false} CanonOfLast(s: string, x: char)
    requires IsPlain(x)
    ensures Canon(s + [x]) == Canon(s) + [x]
    decreases |s|
  {
    if s == "" {
      assert s + [x] == [x] && [x][1..] == "";
    } else if IsDigit(s[0]) {
      var d := Span(IsDigit, s);
      assert (s + [x])[..d] == s[..d] && (s + [x])[d..] == s[d..] + [x];
      SpanUnique(IsDigit, s + [x], d);
      CanonOfLast(s[d..], x);
    } else {
      assert (s + [x])[1..] == s[1..] + [x];
      CanonOfLast(s[1..], x);
    }
  }

  lemma {:induction false} CanonIsEmpty(s: string)
    ensures Canon(s) == "" <==> s == ""
  {
  }

  lemma {:induction false} LastOfCanon(s: string, y: string, x: char)
    requires IsPlain(x) && NUL !in s && Canon(s) == y + [x]
    ensures s != "" && s[|s| - 1] == x && Canon(s[..|s| - 1]) == y
  {
    var last := s[|s| - 1];
    var front := s[..|s| - 1];
    assert s == front + [last] && last in s;
    if IsDigit(last) {
      CanonEndsInNul(s);
    } else {
      CanonOfLast(front, last);
      assert Canon(s)[..|Canon(s)| - 1] == y == Canon(front);
    }
  }

  lemma {:induction false} CanonEndsInNul(s: string)
    requires s != "" && IsDigit(s[|s| - 1])
    ensures var c := Canon(s); c != "" && c[|c| - 1] == NUL
    decreases |s|
  {
    var n := if IsDigit(s[0]) then Span(IsDigit, s) else 1;
    if n < |s| {
      assert s[n..][|s| - n - 1] == s[|s| - 1];
      CanonEndsInNul(s[n..]);
    } else {
      assert s[n..] == "";
    }
  }

  const OPENING: string := AFTER + "'"

  lemma PlainOpening()
    ensures All(IsPlain, BEFORE) && All(IsPlain, OPENING) && IsPlain('\'') && IsPlain(')')
    ensures OPENING != "" && !IsDigit(OPENING[0])
  {
  }

  /** The key of a marker has the form of one. */
  lemma CanonOfMarker(c: string) returns (y: string)
    requires IsMarker(c)
    ensures Canon(c) == BEFORE + ([NUL] + (OPENING + (y + "'" + ")")))
  {
    var tail := After(BEFORE, c).value;
    var d := Span(IsDigit, tail);
    var sample := After(OPENING, tail[d..]).value;
    var z := sample[..|sample| - 2];
    PlainOpening();
    assert c == BEFORE + tail && tail[d..] == OPENING + sample && sample == z + "'" + ")";
    CanonOfLast(z + "'", ')');
    CanonOfLast(z, '\'');
    CanonOfLiteral(OPENING, sample);
    CanonOfNumber(tail);
    CanonOfLiteral(BEFORE, tail);
    y := Canon(z);
  }

  lemma SampleOfCanon(sample: string, y: string)
    requires NUL !in sample && Canon(sample) == y + "'" + ")"
    ensures EndsInQuote(sample)
  {
    PlainOpening();
    LastOfCanon(sample, y + "'", ')');
    var front := sample[..|sample| - 1];
    LastOfCanon(front, y, '\'');
    assert sample[|sample| - 2..] == "')";
  }

  lemma MarkerOfCanon(c: string, y: string)
    requires NUL !in c && Canon(c) == BEFORE + ([NUL] + (OPENING + (y + "'" + ")")))
    ensures IsMarker(c)
  {
    PlainOpening();
    LiteralOfCanon(BEFORE, [NUL] + (OPENING + (y + "'" + ")")), c);
    var tail := c[|BEFORE|..];
    NumberOfCanon(OPENING + (y + "'" + ")"), tail);
    var rest := tail[Span(IsDigit, tail)..];
    LiteralOfCanon(OPENING, y + "'" + ")", rest);
    SampleOfCanon(rest[|OPENING|..], y);
  }

  /** Lines without NUL that have one key are all markers or none is. */
  lemma MarkersByKey(a: string, b: string)
    requires NUL !in b && IsMarker(a) && Canon(a) == Canon(b)
    ensures IsMarker(b)
  {
    var y := CanonOfMarker(a);
    MarkerOfCanon(b, y);
  }

  // ---- what it does -----------------------------------------------------------------------

  lemma NoiseKeyDecides(repr: string -> string)
    ensures KeyDecides(NoiseRule(repr))
  {
  }

  /** Main result: the runs folded are exactly the maximal runs of eight or more lines that are
      equal up to their numbers; every other line is kept. */
  lemma NoiseCutsAtLongRuns(repr: string -> string, s: seq<string>)
    ensures var segs := Segments(NoiseRule(repr), s);
            && Flatten(segs) == s
            && Render(NoiseRule(repr), segs) == Fold(NoiseRule(repr), s)
            && CutsAtLongRuns(NoiseRule(repr), segs)
  {
    NoiseKeyDecides(repr);
    FoldCutsAtLongRuns(NoiseRule(repr), s);
  }

  // ---- what is shown of a run ---------------------------------------------------------------

  /** What is shown has one character for each of the key: the ellipsis for NUL, or the same. */
  lemma {:induction false} SampleAt(k: string, i: nat)
    requires i < |k|
    ensures |Sample(k)| == |k| && Sample(k)[i] == if k[i] == '\0' then '\U{2026}' else k[i]
  {
    if |k| > 1 {
      SampleAt(k[1..], if i > 0 then i - 1 else 0);
    }
  }

  /** The pieces of a line with a filling between each two of them. */
  function Woven(parts: seq<string>, fills: seq<string>): string
    requires |parts| == |fills| + 1
  {
    if fills == [] then parts[0] else parts[0] + (fills[0] + Woven(parts[1..], fills[1..]))
  }

  predicate IsNumber(d: string) {
    d != "" && All(IsDigit, d)
  }

  /** Pieces without digits and NUL, of which only the first and the last may be empty. */
  predicate ArePieces(parts: seq<string>) {
    forall i | 0 <= i < |parts| :: All(IsPlain, parts[i]) && (0 < i < |parts| - 1 ==> parts[i] != "")
  }

  predicate AreNumbers(ds: seq<string>) {
    forall i | 0 <= i < |ds| :: IsNumber(ds[i])
  }

  lemma CanonOfRun(d: string, rest: string)
    requires IsNumber(d) && (rest != "" ==> !IsDigit(rest[0]))
    ensures Canon(d + rest) == [NUL] + Canon(rest)
  {
    var s := d + rest;
    assert s[..|d|] == d && s[|d|..] == rest && IsDigit(d[0]);
    SpanUnique(IsDigit, s, |d|);
  }

  lemma {:induction false} SampleOfPiece(x: string, y: string)
    requires All(IsPlain, x)
    ensures Sample(x + y) == x + Sample(y)
  {
    if x == "" {
      assert x + y == y;
    } else {
      assert IsPlain(x[0]) && (x + y)[1..] == x[1..] + y;
      SampleOfPiece(x[1..], y);
    }
  }

  predicate StartsPlain(s: string) {
    s != "" ==> !IsDigit(s[0])
  }

  lemma WovenStart(parts: seq<string>, fills: seq<string>)
    requires |parts| == |fills| + 1 && All(IsPlain, parts[0]) && (fills != [] ==> parts[0] != "")
    ensures StartsPlain(Woven(parts, fills))
  {
    assert parts[0] != "" ==> IsPlain(parts[0][0]);
  }

  /** The key of a line has one NUL for each of its numbers. */
  lemma {:induction false} CanonOfWoven(parts: seq<string>, ds: seq<string>)
    requires |parts| == |ds| + 1 && ArePieces(parts) && AreNumbers(ds)
    ensures Canon(Woven(parts, ds)) == Woven(parts, Copies([NUL], |ds|))
  {
    var x := parts[0];
    assert All(IsPlain, x);
    if ds == [] {
      CanonOfLiteral(x, "");
      assert x + "" == x;
    } else {
      var rest := Woven(parts[1..], ds[1..]);
      assert All(IsPlain, parts[1]) && IsNumber(ds[0]) && (1 < |parts| - 1 ==> parts[1] != "");
      WovenStart(parts[1..], ds[1..]);
      CanonOfLiteral(x, ds[0] + rest);
      CanonOfRun(ds[0], rest);
      PiecesTail(parts, ds);
      CanonOfWoven(parts[1..], ds[1..]);
      assert Copies([NUL], |ds|)[1..] == Copies([NUL], |ds| - 1);
    }
  }

  /** What is shown of it has an ellipsis for each. */
  lemma {:induction false} SampleOfWoven(parts: seq<string>, n: nat)
    requires |parts| == n + 1 && forall i | 0 <= i <= n :: All(IsPlain, parts[i])
    ensures Sample(Woven(parts, Copies([NUL], n))) == Woven(parts, Copies("\U{2026}", n))
  {
    var x := parts[0];
    if n == 0 {
      SampleOfPiece(x, "");
      assert x + "" == x;
    } else {
      var rest := Woven(parts[1..], Copies([NUL], n - 1));
      assert Copies([NUL], n)[1..] == Copies([NUL], n - 1);
      assert Copies("\U{2026}", n)[1..] == Copies("\U{2026}", n - 1);
      SampleOfPiece(x, [NUL] + rest);
      assert ([NUL] + rest)[1..] == rest && [ELLIPSIS] == "\U{2026}";
      SampleOfWoven(parts[1..], n - 1);
    }
  }

  lemma PiecesTail(parts: seq<string>, ds: seq<string>)
    requires |parts| == |ds| + 1 && ArePieces(parts) && AreNumbers(ds) && ds != []
    ensures ArePieces(parts[1..]) && AreNumbers(ds[1..])
  {
    assert forall i | 0 <= i < |parts| - 1 :: parts[1..][i] == parts[i + 1];
  }

  predicate HasMarkerForm(c: string, d: string, z: string) {
    IsNumber(d) && c == "\U{2026} (" + (d + (" near-identical lines: '" + (z + "')")))
  }

  /** The contents that are taken for markers. */
  lemma MarkersAre(c: string)
    ensures IsMarker(c) <==> exists d, z :: HasMarkerForm(c, d, z)
  {
    if IsMarker(c) {
      FormOfMarker(c);
    }
    if d, z :| HasMarkerForm(c, d, z) {
      MarkerOfForm(c, d, z);
    }
  }

  lemma FormOfMarker(c: string)
    requires IsMarker(c)
    ensures exists d, z :: HasMarkerForm(c, d, z)
  {
    var tail := After(BEFORE, c).value;
    var n := Span(IsDigit, tail);
    var sample := After(OPENING, tail[n..]).value;
    var d, z := tail[..n], sample[..|sample| - 2];
    assert sample == z + "')";
    assert tail[n..] == OPENING + sample;
    assert c == BEFORE + tail && tail == d + tail[n..];
    assert OPENING == " near-identical lines: '";
    assert HasMarkerForm(c, d, z);
  }

  lemma MarkerOfForm(c: string, d: string, z: string)
    requires HasMarkerForm(c, d, z)
    ensures IsMarker(c)
  {
    var sample := z + "')";
    var rest := OPENING + sample;
    assert c == BEFORE + (d + rest);
    AfterOfAppend(BEFORE, d + rest);
    assert (d + rest)[..|d|] == d && (d + rest)[|d|..] == rest && rest[0] == ' ';
    SpanUnique(IsDigit, d + rest, |d|);
    AfterOfAppend(OPENING, sample);
    assert sample[|sample| - 2..] == "')";
  }

  /** A line without digits and NUL stays, and so does a line that is a marker. */
  lemma OthersAreKept(repr: string -> string, l: string, rest: seq<string>)
    requires All(IsPlain, Content(l)) || IsMarker(Content(l))
    ensures Fold(NoiseRule(repr), [l] + rest) == [l] + Fold(NoiseRule(repr), rest)
  {
    var c := Content(l);
    if All(IsPlain, c) {
      CanonOfLiteral(c, "");
      assert c + "" == c && Canon(c) == c;
      assert forall i | 0 <= i < |c| :: IsPlain(c[i]);
    }
    assert ([l] + rest)[0] == l && ([l] + rest)[1..] == rest;
    assert NoiseRule(repr).key(l) == Key(l) == None;
  }

  lemma MarkerReads(repr: string -> string, first: string, k: string, n: nat)
    ensures Marker(repr, first, k, n)
         == "\U{2026} (" + Dec(n) + " near-identical lines: " + repr(Sample(k)) + ")" + EolFor(first)
  {
  }

  /** Eight or more lines with the same key, the first of which is no marker, become one marker. */
  lemma NoiseRunIsFolded(repr: string -> string, run: seq<string>, k: string, rest: seq<string>)
    requires |run| >= 8 && '\0' in k && !IsMarker(Content(run[0]))
    requires forall i | 0 <= i < |run| :: Canon(Content(run[i])) == k
    requires rest != [] ==> Canon(Content(rest[0])) != k
    ensures Fold(NoiseRule(repr), run + rest)
         == [Marker(repr, run[0], k, |run|)] + Fold(NoiseRule(repr), rest)
  {
    var rule := NoiseRule(repr);
    CanonIsEmpty(Content(run[0]));
    forall i | 1 <= i < |run| ensures rule.same(k, run[i]) {
      assert Same(k, run[i]);
    }
    assert rest != [] ==> rule.same(k, rest[0]) == Same(k, rest[0]);
    RunIsFolded(rule, run, k, rest);
  }

  /** Fewer of them stay. */
  lemma ShortNoiseIsKept(repr: string -> string, run: seq<string>, k: string, rest: seq<string>)
    requires |run| < 8 && '\0' in k
    requires forall i | 0 <= i < |run| :: Canon(Content(run[i])) == k && !IsMarker(Content(run[i]))
    requires rest != [] ==> Canon(Content(rest[0])) != k
    ensures Fold(NoiseRule(repr), run + rest) == run + Fold(NoiseRule(repr), rest)
  {
    var rule := NoiseRule(repr);
    forall i | 0 <= i < |run| ensures rule.key(run[i]) == Some(k) && rule.same(k, run[i]) {
      CanonIsEmpty(Content(run[i]));
      assert Key(run[i]) == Some(k) && Same(k, run[i]);
    }
    assert rest != [] ==> rule.same(k, rest[0]) == Same(k, rest[0]);
    ShortRunIsKept(rule, run, k, rest);
  }

  /** The line made of these pieces and numbers. */
  predicate IsLineOf(parts: seq<string>, ds: seq<string>, l: string) {
    && |parts| == |ds| + 1 && AreNumbers(ds)
    && NoBreaks(Woven(parts, ds)) && l == Woven(parts, ds) + "\n"
  }

  predicate AreLinesOf(parts: seq<string>, dss: seq<seq<string>>, ls: seq<string>) {
    |ls| == |dss| && forall i | 0 <= i < |ls| :: IsLineOf(parts, dss[i], ls[i])
  }

  lemma LineOfFacts(parts: seq<string>, ds: seq<string>, l: string)
    requires ArePieces(parts) && IsLineOf(parts, ds, l)
    ensures IsLine(l) && l[|l| - 1] == '\n' && Content(l) == Woven(parts, ds) && EolFor(l) == "\n"
    ensures Canon(Content(l)) == Woven(parts, Copies([NUL], |parts| - 1))
  {
    var c := Woven(parts, ds);
    LineLenOfPlain(c, "\n");
    EolOfEnd(c, "\n");
    CanonOfWoven(parts, ds);
  }

  lemma {:induction false} WovenHas(parts: seq<string>, x: char, n: nat)
    requires |parts| == n + 1 && n > 0
    ensures x in Woven(parts, Copies([x], n))
  {
    assert Copies([x], n)[0] == [x];
    assert Woven(parts, Copies([x], n))[|parts[0]|] == x;
  }

  /** Main result: eight or more lines that differ in their numbers only become one line, which tells how
      many they were and shows the text they share with an ellipsis for each number. */
  lemma SimilarLinesBecomeOne(repr: string -> string, parts: seq<string>, dss: seq<seq<string>>,
                              ls: seq<string>, rest: string)
    requires |ls| >= 8 && |parts| >= 2 && ArePieces(parts) && AreLinesOf(parts, dss, ls)
    requires !IsMarker(Woven(parts, dss[0]))
    requires rest != "" ==> Canon(Content(SplitLines(rest)[0])) != Canon(Woven(parts, dss[0]))
    ensures NoiseText(repr, Join(ls) + rest)
         == "\U{2026} (" + Dec(|ls|) + " near-identical lines: "
            + repr(Woven(parts, Copies("\U{2026}", |parts| - 1))) + ")" + "\n" + NoiseText(repr, rest)
  {
    var n := |parts| - 1;
    var k := Woven(parts, Copies([NUL], n));
    forall i | 0 <= i < |ls|
      ensures IsLine(ls[i]) && ls[i][|ls[i]| - 1] == '\n' && Canon(Content(ls[i])) == k
    {
      assert IsLineOf(parts, dss[i], ls[i]);
      LineOfFacts(parts, dss[i], ls[i]);
    }
    assert IsLineOf(parts, dss[0], ls[0]);
    LineOfFacts(parts, dss[0], ls[0]);
    WovenHas(parts, NUL, n);
    ClosedLinesSplit(ls, rest);
    NoiseRunIsFolded(repr, ls, k, SplitLines(rest));
    JoinOfCons(Marker(repr, ls[0], k, |ls|), Fold(NoiseRule(repr), SplitLines(rest)));
    SampleOfWoven(parts, n);
    MarkerReads(repr, ls[0], k, |ls|);
  }

  // ---- when a second pass does nothing ----------------------------------------------------

  /** A single quote and no double quote: Python's `repr` then uses double quotes. */
  predicate NeedsDoubleQuotes(s: string) {
    '\'' in s && '"' !in s
  }

  function QuoteOf(s: string): char {
    if NeedsDoubleQuotes(s) then '"' else '\''
  }

  predicate InQuotes(shown: string, q: char) {
    |shown| >= 2 && shown[0] == q && shown[|shown| - 1] == q
  }

  /** What is used of Python's `repr`: it shows breaks and NUL as escapes and which quotes it uses. */
  ghost predicate PythonRepr(repr: string -> string) {
    forall s :: NoBreaks(repr(s)) && NUL !in repr(s) && InQuotes(repr(s), QuoteOf(s))
  }

  lemma PlainLiterals()
    ensures NoBreaks(BEFORE) && NoBreaks(AFTER) && NUL !in BEFORE && NUL !in AFTER
  {
  }

  lemma QuotesOfKey(c: string)
    ensures NeedsDoubleQuotes(Sample(Canon(c))) <==> NeedsDoubleQuotes(c)
  {
    CanonKeepsTheRest(c, '\'');
    CanonKeepsTheRest(c, '"');
    SampleKeepsTheRest(Canon(c), '\'');
    SampleKeepsTheRest(Canon(c), '"');
  }

  lemma MarkerAfterNumber(n: nat, rest: string)
    requires rest != "" ==> !IsDigit(rest[0])
    ensures IsMarker(BEFORE + (Dec(n) + rest))
       <==> After(OPENING, rest).Some? && EndsInQuote(After(OPENING, rest).value)
  {
    AfterOfAppend(BEFORE, Dec(n) + rest);
    TakePrinted(n, rest);
  }

  lemma MarkerForm(repr: string -> string, k: string, n: nat)
    requires repr(Sample(k)) != ""
    ensures var shown := repr(Sample(k));
            MarkerText(repr, k, n) == BEFORE + (Dec(n) + (AFTER + [shown[0]] + (shown[1..] + ")")))
  {
    var shown := repr(Sample(k));
    assert [shown[0]] + shown[1..] == shown;
    RegroupMarker(BEFORE, Dec(n), AFTER, [shown[0]], shown[1..], ")");
  }

  lemma RegroupMarker(a: string, b: string, c: string, d: string, e: string, f: string)
    ensures a + b + c + (d + e) + f == a + (b + (c + d + (e + f)))
  {
  }

  lemma QuoteDecides(q: char, sample: string)
    ensures After(OPENING, AFTER + [q] + sample) == if q == '\'' then Some(sample) else None
  {
    var rest := AFTER + [q] + sample;
    assert rest[|AFTER|] == q && OPENING[|AFTER|] == '\'';
    if q == '\'' {
      AfterOfAppend(OPENING, sample);
    }
  }

  lemma MarkerWithQuote(n: nat, q: char, sample: string)
    ensures IsMarker(BEFORE + (Dec(n) + (AFTER + [q] + sample))) <==> q == '\'' && EndsInQuote(sample)
  {
    var rest := AFTER + [q] + sample;
    assert rest[0] == ' ';
    MarkerAfterNumber(n, rest);
    QuoteDecides(q, sample);
  }

  lemma QuotedSample(shown: string, q: char)
    requires InQuotes(shown, q)
    ensures EndsInQuote(shown[1..] + ")") <==> q == '\''
  {
    var sample := shown[1..] + ")";
    assert sample[|sample| - 2..] == [q, ')'];
  }

  /** A marker recognises itself exactly if its sample is in single quotes. */
  lemma MarkerIsRecognised(repr: string -> string, k: string, n: nat)
    requires PythonRepr(repr)
    ensures IsMarker(MarkerText(repr, k, n)) <==> !NeedsDoubleQuotes(Sample(k))
  {
    var shown := repr(Sample(k));
    var q := QuoteOf(Sample(k));
    assert InQuotes(shown, q);
    MarkerForm(repr, k, n);
    MarkerWithQuote(n, q, shown[1..] + ")");
    QuotedSample(shown, q);
  }

  lemma MarkerIsPlain(repr: string -> string, k: string, n: nat)
    requires PythonRepr(repr)
    ensures NoBreaks(MarkerText(repr, k, n)) && NUL !in MarkerText(repr, k, n) && MarkerText(repr, k, n) != ""
  {
    var shown := repr(Sample(k));
    assert NoBreaks(shown) && NUL !in shown;
    PlainLiterals();
    NoBreaksInNumbered(BEFORE, n, AFTER);
    NoBreaksInAppend(Numbered(BEFORE, n, AFTER), shown);
    NoBreaksInAppend(Numbered(BEFORE, n, AFTER) + shown, ")");
    assert forall i | 0 <= i < |Dec(n)| :: IsDigit(Dec(n)[i]);
    assert NUL !in Dec(n);
  }

  /** What the numbers of a marker leave of it. */
  function MarkerCanon(repr: string -> string, k: string): string {
    BEFORE + ([NUL] + Canon(AFTER + (repr(Sample(k)) + ")")))
  }

  lemma CanonOfMarkerText(repr: string -> string, k: string, n: nat)
    ensures Canon(MarkerText(repr, k, n)) == MarkerCanon(repr, k)
  {
    var rest := AFTER + (repr(Sample(k)) + ")");
    PlainOpening();
    RegroupNumber(BEFORE, Dec(n), AFTER, repr(Sample(k)), ")");
    CanonOfLiteral(BEFORE, Dec(n) + rest);
    NumberFirst(n, rest);
    CanonOfNumber(Dec(n) + rest);
  }

  lemma RegroupNumber(a: string, b: string, c: string, d: string, e: string)
    ensures a + b + c + d + e == a + (b + (c + (d + e)))
  {
  }

  lemma NumberFirst(n: nat, rest: string)
    requires rest != "" && !IsDigit(rest[0])
    ensures var s := Dec(n) + rest; IsDigit(s[0]) && s[Span(IsDigit, s)..] == rest
  {
    var s, d := Dec(n) + rest, |Dec(n)|;
    assert s[..d] == Dec(n) && s[d] == rest[0] && s[d..] == rest;
    assert IsDigit(Dec(n)[0]);
    SpanUnique(IsDigit, s, d);
  }

  /** A marker is a line; it again has a key exactly if the lines it stands for have a single and no
      double quote. */
  lemma MarkerLineFacts(repr: string -> string, a: string, k: string, n: nat)
    requires PythonRepr(repr) && IsLine(a) && Key(a) == Some(k)
    ensures var m := Marker(repr, a, k, n);
            && IsLine(m) && IsBreak(m[|m| - 1]) && m[0] != '\n' && (EndsInReturn(m) ==> EndsInReturn(a))
            && Content(m) == MarkerText(repr, k, n) && Canon(Content(m)) == MarkerCanon(repr, k)
            && (Key(m).Some? <==> NeedsDoubleQuotes(Content(a)))
  {
    MarkerIsPlain(repr, k, n);
    MarkerIsRecognised(repr, k, n);
    CanonOfMarkerText(repr, k, n);
    assert MarkerCanon(repr, k)[|BEFORE|] == NUL;
    QuotesOfKey(Content(a));
    MarkerLine(MarkerText(repr, k, n), a);
  }

  lemma NoiseMarkers(repr: string -> string)
    requires PythonRepr(repr)
    ensures Closes(NoiseRule(repr)) && OneLineMarkers(NoiseRule(repr))
  {
    var rule := NoiseRule(repr);
    assert Content("\n") == Content("") == "";
    assert rule.key("\n") == None;
    forall a, k, n: nat | IsLine(a) && rule.key(a) == Some(k)
      ensures IsLine(rule.marker(a, k, n)) && IsClosing(rule.marker(a, k, n), a)
    {
      MarkerLineFacts(repr, a, k, n);
      OneLine(Marker(repr, a, k, n));
    }
  }

  /** The line shown for the first piece of `s` opens a run: a kept line that has a key, or the marker
      of lines with a single and no double quote. */
  predicate Opens(repr: string -> string, s: seq<string>)
    requires s != []
  {
    if FoldsAt(NoiseRule(repr), s) then NeedsDoubleQuotes(Content(s[0])) else Key(s[0]).Some?
  }

  /** What the numbers leave of the line shown for the first piece. */
  function ShownCanon(repr: string -> string, s: seq<string>): string
    requires s != []
  {
    var k := Canon(Content(s[0]));
    if FoldsAt(NoiseRule(repr), s) then MarkerCanon(repr, k) else k
  }

  /** How many pieces at the head of `s` are shown as the same up to their numbers. */
  function ShownRun(repr: string -> string, k: string, s: seq<string>): nat {
    if s == [] || ShownCanon(repr, s) != k then 0
    else 1 + ShownRun(repr, k, s[Taken(NoiseRule(repr), s)..])
  }

  /** Eight pieces in a row are shown as the same up to their numbers, and the first opens a run. */
  predicate MarkersGather(repr: string -> string, s: seq<string>) {
    s != [] &&
    var rest := s[Taken(NoiseRule(repr), s)..];
    (Opens(repr, s) && 8 <= 1 + ShownRun(repr, ShownCanon(repr, s), rest)) || MarkersGather(repr, rest)
  }

  lemma ShownFacts(repr: string -> string, s: seq<string>)
    requires PythonRepr(repr) && s != [] && IsLine(s[0])
    ensures var shown := Shown(NoiseRule(repr), s);
            && Canon(Content(shown)) == ShownCanon(repr, s)
            && NoiseRule(repr).key(shown) == if Opens(repr, s) then Some(ShownCanon(repr, s)) else None
  {
    var rule := NoiseRule(repr);
    if FoldsAt(rule, s) {
      MarkerLineFacts(repr, s[0], rule.key(s[0]).value, RunAt(rule, s));
      var g := ShownMarkerLine(rule, s);
    }
  }

  lemma {:induction false} ShownRunIsFollowers(repr: string -> string, k: string, s: seq<string>)
    requires PythonRepr(repr) && forall l | l in s :: IsLine(l)
    ensures ShownRun(repr, k, s) == ShownFollowers(NoiseRule(repr), k, s)
    decreases |s|
  {
    if s != [] {
      var rule := NoiseRule(repr);
      ShownFacts(repr, s);
      assert rule.same(k, Shown(rule, s)) == Same(k, Shown(rule, s));
      ShownRunIsFollowers(repr, k, s[Taken(rule, s)..]);
    }
  }

  lemma {:induction false} MarkersGatherIsGathers(repr: string -> string, s: seq<string>)
    requires PythonRepr(repr) && forall l | l in s :: IsLine(l)
    ensures MarkersGather(repr, s) <==> Gathers(NoiseRule(repr), s)
    decreases |s|
  {
    if s != [] {
      var rest := s[Taken(NoiseRule(repr), s)..];
      ShownFacts(repr, s);
      ShownRunIsFollowers(repr, ShownCanon(repr, s), rest);
      MarkersGatherIsGathers(repr, rest);
    }
  }

  /** Main result: on every text a second pass does nothing exactly if no eight pieces of the text are shown
      by lines that make up a run. */
  lemma NoiseFoldIsIdempotentIff(repr: string -> string, t: string)
    requires PythonRepr(repr)
    ensures NoiseText(repr, NoiseText(repr, t)) == NoiseText(repr, t) <==> !MarkersGather(repr, SplitLines(t))
  {
    var s := SplitLines(t);
    SplitGivesLines(t);
    NoiseMarkers(repr);
    MarkersGatherIsGathers(repr, s);
    MarkerFoldIsIdempotentIff(NoiseRule(repr), s);
  }

  /** Neither NUL nor, in a line that can be folded, a single and no double quote. */
  predicate Foldable(l: string) {
    IsLine(l) && NUL !in Content(l) && (Key(l).Some? ==> !NeedsDoubleQuotes(Content(l)))
  }

  /** The marker of such lines is not what another such line is up to its numbers. */
  lemma MarkerCanonIsNoKey(repr: string -> string, a: string, k: string, b: string, k': string)
    requires PythonRepr(repr) && Foldable(a) && Key(a) == Some(k) && Foldable(b) && Key(b) == Some(k')
    ensures MarkerCanon(repr, k') != k
  {
    MarkerIsRecognised(repr, k', 8);
    CanonOfMarkerText(repr, k', 8);
    QuotesOfKey(Content(b));
    if MarkerCanon(repr, k') == k {
      MarkersByKey(MarkerText(repr, k', 8), Content(a));
    }
  }

  /** So behind a line that is kept only lines that go on with it are shown as the same. */
  lemma {:induction false} KeptRun(repr: string -> string, a: string, k: string, s: seq<string>)
    requires PythonRepr(repr) && Foldable(a) && Key(a) == Some(k) && forall l | l in s :: Foldable(l)
    ensures ShownRun(repr, k, s) <= Followers(NoiseRule(repr), k, s)
  {
    if s != [] && ShownCanon(repr, s) == k {
      var rule := NoiseRule(repr);
      if FoldsAt(rule, s) {
        MarkerCanonIsNoKey(repr, a, k, s[0], rule.key(s[0]).value);
      } else {
        assert rule.same(k, s[0]) == Same(k, s[0]);
        KeptRun(repr, a, k, s[1..]);
      }
    }
  }

  lemma {:induction false} NothingGathers(repr: string -> string, s: seq<string>)
    requires PythonRepr(repr) && forall l | l in s :: Foldable(l)
    ensures !MarkersGather(repr, s)
    decreases |s|
  {
    if s != [] {
      var rule := NoiseRule(repr);
      NothingGathers(repr, s[Taken(rule, s)..]);
      if !FoldsAt(rule, s) && Key(s[0]).Some? {
        KeptRun(repr, s[0], Key(s[0]).value, s[1..]);
      }
    }
  }

  /** In particular, without NUL, if no line that can be folded has a single and no double quote. */
  lemma NoiseFoldIsIdempotent(repr: string -> string, t: string)
    requires PythonRepr(repr) && NUL !in t
    requires forall l | l in SplitLines(t) && Key(l).Some? :: !NeedsDoubleQuotes(Content(l))
    ensures NoiseText(repr, NoiseText(repr, t)) == NoiseText(repr, t)
  {
    var s := SplitLines(t);
    SplitGivesLines(t);
    JoinOfSplit(t);
    forall l | l in s ensures Foldable(l) {
      if NUL in Content(l) {
        JoinHas(s, l, NUL);
      }
    }
    NothingGathers(repr, s);
    NoiseFoldIsIdempotentIff(repr, t);
  }

  lemma {:induction false} JoinHas(ls: seq<string>, l: string, x: char)
    requires l in ls && x in l
    ensures x in Join(ls)
  {
    if l != ls[0] {
      JoinHas(ls[1..], l, x);
    }
  }

  // ---- and when it does not ---------------------------------------------------------------

  lemma MarkerStartsAnotherRun(repr: string -> string, l: string, k: string, n: nat)
    requires PythonRepr(repr) && IsLine(l)
    requires Key(l) == Some(k) && NeedsDoubleQuotes(Content(l))
    ensures !Same(k, Marker(repr, l, k, n))
  {
    var text := MarkerText(repr, k, n);
    MarkerLineFacts(repr, l, k, n);
    QuotesOfKey(Content(l));
    var shown := repr(Sample(k));
    assert text[|Numbered(BEFORE, n, AFTER)|] == shown[0] == '"';
    CanonKeepsTheRest(text, '"');
    CanonKeepsTheRest(Content(l), '"');
  }

  /** A line of the excepted kind. */
  predicate IsExcepted(l: string, k: string) {
    && IsLine(l) && l[|l| - 1] == '\n'
    && Key(l) == Some(k) && NeedsDoubleQuotes(Content(l))
  }

  /** Eight such lines and seven times their marker. */
  function ReopeningText(repr: string -> string, l: string, k: string): string {
    Join(Copies(l, 8) + Copies(Marker(repr, l, k, 8), 7))
  }

  /** Main result: the exception is needed. For every such line there is a text made of it and its
      marker on which a second pass folds the markers of the first. */
  lemma NoiseFoldIsNotIdempotent(repr: string -> string, l: string, k: string)
    requires PythonRepr(repr)
    ensures var t := ReopeningText(repr, l, k);
            IsExcepted(l, k) ==> NoiseText(repr, NoiseText(repr, t)) != NoiseText(repr, t)
  {
    if IsExcepted(l, k) {
      var rule, m := NoiseRule(repr), Marker(repr, l, k, 8);
      var s := Copies(l, 8) + Copies(m, 7);
      MarkerLineFacts(repr, l, k, 8);
      MarkerStartsAnotherRun(repr, l, k, 8);
      MarkersReopen(rule, l, k, m, Key(m).value);
      var m' := rule.marker(m, Key(m).value, 8);
      MarkerLineFacts(repr, m, Key(m).value, 8);
      BlocksSplit(l, 8, m, 7);
      BlocksSplit(l, 0, m, 8);
      BlocksSplit(l, 0, m', 1);
      assert [] + Copies(m, 8) == Copies(m, 8) && [] + Copies(m', 1) == [m'];
      assert SplitLines(NoiseText(repr, Join(s))) == Copies(m, 8);
    }
  }

  lemma ExceptedContent(c: string, pre: string)
    requires c == pre + "1" && All(IsPlain, pre) && pre != "" && pre[0] != ELLIPSIS
    ensures NUL in Canon(c) && !IsMarker(c)
  {
    CanonOfLiteral(pre, "1");
    CanonOfNumber("1");
    assert Canon(c)[|pre|] == NUL;
    assert c[0] == pre[0] && BEFORE[0] == ELLIPSIS;
  }

  lemma ExceptedLine(c: string, pre: string)
    requires c == pre + "1" && All(IsPlain, pre) && pre != "" && pre[0] != ELLIPSIS
    requires NoBreaks(c) && NeedsDoubleQuotes(c)
    ensures IsExcepted(c + "\n", Canon(c))
  {
    LineLenOfPlain(c, "\n");
    ContentOfAppend(c, "\n");
    ExceptedContent(c, pre);
  }

  /** There are such lines. */
  lemma ExceptedWitness()
    ensures IsExcepted("it's 1" + "\n", Canon("it's 1"))
  {
    var c := "it's 1";
    assert c[2] == '\'';
    ExceptedLine(c, "it's ");
  }
}
