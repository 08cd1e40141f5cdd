/**
  Folding of runs of consecutive lines, the loop shared by `dedup_lines`, `fenced_log_fold` and
  `numbered_noise_fold`: a line with a key opens a run, the run goes on while the following
  lines are `same` as the key, and a run of at least `least` lines becomes (perhaps its first
  line and) one marker.
 */
module RunFold {
  import opened Text
  import opened Wrappers

  datatype Rule = Rule(
    key: string -> Option<string>,
    same: (string, string) -> bool,
    least: nat,
    keepFirst: bool,
    marker: (string, string, nat) -> string)

  /** How many lines at the head of `s` go on with the run of key `k`. */
  function Followers(rule: Rule, k: string, s: seq<string>): (n: nat)
    ensures n <= |s|
    ensures forall i | 0 <= i < n :: rule.same(k, s[i])
    ensures n < |s| ==> !rule.same(k, s[n])
  {
    if s == [] || !rule.same(k, s[0]) then 0 else 1 + Followers(rule, k, s[1..])
  }

  /** The length of the run opened by the first line of `s`; 0 when that line has no key. */
  function RunAt(rule: Rule, s: seq<string>): (n: nat)
    requires s != []
    ensures n <= |s|
  {
    match rule.key(s[0])
    case None => 0
    case Some(k) => 1 + Followers(rule, k, s[1..])
  }

  predicate FoldsAt(rule: Rule, s: seq<string>)
    requires s != []
  {
    rule.key(s[0]).Some? && rule.least <= RunAt(rule, s)
  }

  function Rendered(rule: Rule, first: string, k: string, run: nat): seq<string> {
    (if rule.keepFirst then [first] else []) + [rule.marker(first, k, run)]
  }

  function Fold(rule: Rule, s: seq<string>): seq<string> {
    if s == [] then []
    else if FoldsAt(rule, s) then
      Rendered(rule, s[0], rule.key(s[0]).value, RunAt(rule, s)) + Fold(rule, s[RunAt(rule, s)..])
    else [s[0]] + Fold(rule, s[1..])
  }

  /** The inner loop: the index after the run of key `k` opened by line `i`. */
  method RunEnd(rule: Rule, k: string, lines: seq<string>, i: nat) returns (j: nat)
    requires i < |lines|
    ensures i < j <= |lines|
    ensures j - i == 1 + Followers(rule, k, lines[i + 1..])
  {
    j := i + 1;
    while j < |lines| && rule.same(k, lines[j])
      invariant i < j <= |lines|
      invariant Followers(rule, k, lines[i + 1..])
             == j - i - 1 + Followers(rule, k, lines[j..])
    {
      assert lines[j..][1..] == lines[j + 1..];
      j := j + 1;
    }
  }

  /** The outer loop, one step of it. */
  method FoldOne(rule: Rule, lines: seq<string>, i: nat) returns (piece: seq<string>, j: nat)
    requires i < |lines|
    ensures i < j <= |lines|
    ensures Fold(rule, lines[i..]) == piece + Fold(rule, lines[j..])
  {
    ghost var rest := lines[i..];
    assert rest[1..] == lines[i + 1..];
    j, piece := i + 1, [lines[i]];
    var key := rule.key(lines[i]);
    if key.Some? {
      var end := RunEnd(rule, key.value, lines, i);
      assert rest[end - i..] == lines[end..];
      if rule.least <= end - i {
        j, piece := end, Rendered(rule, lines[i], key.value, end - i);
      }
    }
  }

  method FoldRuns(rule: Rule, lines: seq<string>) returns (out: seq<string>)
    ensures out == Fold(rule, lines)
  {
    out := [];
    var i := 0;
    while i < |lines|
      invariant 0 <= i <= |lines|
      invariant out + Fold(rule, lines[i..]) == Fold(rule, lines)
    {
      var piece, j := FoldOne(rule, lines, i);
      assert out + (piece + Fold(rule, lines[j..])) == (out + piece) + Fold(rule, lines[j..]);
      out, i := out + piece, j;
    }
    assert lines[|lines|..] == [];
  }

  /** A long enough run in front of a line that does not go on with it. */
  lemma RunIsFolded(rule: Rule, run: seq<string>, k: string, rest: seq<string>)
    requires run != [] && rule.least <= |run| && rule.key(run[0]) == Some(k)
    requires forall i | 1 <= i < |run| :: rule.same(k, run[i])
    requires rest != [] ==> !rule.same(k, rest[0])
    ensures Fold(rule, run + rest) == Rendered(rule, run[0], k, |run|) + Fold(rule, rest)
  {
    var s := run + rest;
    assert s[1..] == run[1..] + rest && s[|run|..] == rest;
    FollowersAre(rule, k, s[1..], |run| - 1);
  }

  /** Too short a run in front of such a line. */
  lemma {:induction false} ShortRunIsKept(rule: Rule, run: seq<string>, k: string, rest: seq<string>)
    requires |run| < rule.least
    requires forall i | 0 <= i < |run| :: rule.key(run[i]) == Some(k) && rule.same(k, run[i])
    requires rest != [] ==> !rule.same(k, rest[0])
    ensures Fold(rule, run + rest) == run + Fold(rule, rest)
  {
    if run == [] {
      assert run + rest == rest;
    } else {
      var tail := run[1..] + rest;
      assert run + rest == [run[0]] + tail;
      FollowersAre(rule, k, tail, |run| - 1);
      HeadIsKept(rule, run[0], k, tail);
      ShortRunIsKept(rule, run[1..], k, rest);
      Regroup([run[0]], run[1..], Fold(rule, rest));
      Rejoin(run, 1);
    }
  }

  lemma HeadIsKept(rule: Rule, x: string, k: string, tail: seq<string>)
    requires rule.key(x) == Some(k) && 1 + Followers(rule, k, tail) < rule.least
    ensures Fold(rule, [x] + tail) == [x] + Fold(rule, tail)
  {
    assert ([x] + tail)[1..] == tail;
  }

  lemma {:induction false} FollowersAre(rule: Rule, k: string, s: seq<string>, n: nat)
    requires n <= |s| && forall i | 0 <= i < n :: rule.same(k, s[i])
    requires n < |s| ==> !rule.same(k, s[n])
    ensures Followers(rule, k, s) == n
  {
  }

  // ---- hypotheses on a rule ---------------------------------------------------------------

  /** Among the lines of `u`, "goes on with the run of key k" means "has key k". */
  ghost predicate Consistent(rule: Rule, u: string -> bool) {
    forall a, b, k | u(a) && u(b) && rule.key(a) == Some(k) ::
      rule.same(k, b) <==> rule.key(b) == Some(k)
  }

  /** The marker of a run has no key, or the key of the run it stands for; the latter is harmless
      only when two lines are too few to fold. */
  ghost predicate StableMarkers(rule: Rule, u: string -> bool) {
    forall a, k, n | u(a) && rule.key(a) == Some(k) && rule.least <= n ::
      var m := rule.marker(a, k, n);
      u(m) && (rule.key(m) == None || (rule.key(m) == Some(k) && (rule.keepFirst ==> rule.least > 2)))
  }

  // ---- lines are conserved ----------------------------------------------------------------

  /** A piece of the input: one line kept as it is, or a folded run. */
  datatype Segment = Kept(line: string) | Folded(key: string, run: seq<string>)

  function Lines(seg: Segment): seq<string> {
    if seg.Kept? then [seg.line] else seg.run
  }

  function Flatten(segs: seq<Segment>): seq<string> {
    if segs == [] then [] else Lines(segs[0]) + Flatten(segs[1..])
  }

  function RenderOne(rule: Rule, seg: Segment): seq<string> {
    match seg
    case Kept(line) => [line]
    case Folded(k, run) => if run == [] then [] else Rendered(rule, run[0], k, |run|)
  }

  function Render(rule: Rule, segs: seq<Segment>): seq<string> {
    if segs == [] then [] else RenderOne(rule, segs[0]) + Render(rule, segs[1..])
  }

  /** The number of lines the first piece takes, and that piece. */
  function HeadLength(rule: Rule, s: seq<string>): (n: nat)
    requires s != []
    ensures 1 <= n <= |s|
  {
    if FoldsAt(rule, s) then RunAt(rule, s) else 1
  }

  function HeadPiece(rule: Rule, s: seq<string>): (seg: Segment)
    requires s != []
    ensures Lines(seg) == s[..HeadLength(rule, s)]
  {
    if FoldsAt(rule, s) then Folded(rule.key(s[0]).value, s[..RunAt(rule, s)]) else Kept(s[0])
  }

  function Segments(rule: Rule, s: seq<string>): (segs: seq<Segment>)
    ensures s != [] ==> segs != []
  {
    if s == [] then [] else [HeadPiece(rule, s)] + Segments(rule, s[HeadLength(rule, s)..])
  }

  /** A line with a key goes on with the runs of that key and no others. */
  ghost predicate KeyDecides(rule: Rule) {
    forall l, k, k' | rule.key(l) == Some(k) :: rule.same(k', l) <==> k' == k
  }

  /** A folded piece is a long enough run: a line with a key and lines that go on with it. */
  ghost predicate IsLongRun(rule: Rule, seg: Segment) {
    seg.Folded? ==>
      && rule.least <= |seg.run| && seg.run != [] && rule.key(seg.run[0]) == Some(seg.key)
      && forall x | x in seg.run :: rule.same(seg.key, x)
  }

  /** Two neighbouring pieces: a run cannot be extended across the border, on either side. */
  ghost predicate Apart(rule: Rule, left: Segment, right: Segment) {
    var x, y := Lines(left), Lines(right);
    && (left.Folded? && y != [] ==> !rule.same(left.key, y[0]))
    && (right.Folded? && x != [] ==> rule.key(x[|x| - 1]) != Some(right.key))
  }

  /** No line of `s` opens a run of `least` lines. */
  ghost predicate NoLongRun(rule: Rule, s: seq<string>) {
    forall i, k | 0 <= i <= |s| - rule.least && i < |s| && rule.key(s[i]) == Some(k) ::
      exists j :: i < j < i + rule.least && !rule.same(k, s[j])
  }

  /** The folded pieces are exactly the maximal runs that are long enough: every folded piece is
      one and cannot be extended, and no stretch of kept lines contains another. */
  ghost predicate CutsAtLongRuns(rule: Rule, segs: seq<Segment>) {
    && (forall i | 0 <= i < |segs| :: IsLongRun(rule, segs[i]))
    && (forall i | 0 < i < |segs| :: Apart(rule, segs[i - 1], segs[i]))
    && (forall a, b | 0 <= a <= b <= |segs| && AllKept(segs[a..b]) :: NoLongRun(rule, Flatten(segs[a..b])))
  }

  predicate AllKept(segs: seq<Segment>) {
    forall i | 0 <= i < |segs| :: segs[i].Kept?
  }

  lemma FlattenCons(seg: Segment, segs: seq<Segment>)
    ensures Flatten([seg] + segs) == Lines(seg) + Flatten(segs)
  {
    assert ([seg] + segs)[1..] == segs;
  }

  lemma {:induction false} SegmentsConserveLines(rule: Rule, s: seq<string>)
    ensures Flatten(Segments(rule, s)) == s
  {
    if s != [] {
      var n := HeadLength(rule, s);
      SegmentsConserveLines(rule, s[n..]);
      FlattenCons(HeadPiece(rule, s), Segments(rule, s[n..]));
      Rejoin(s, n);
    }
  }

  lemma {:induction false} SegmentsRenderTheFold(rule: Rule, s: seq<string>)
    ensures Render(rule, Segments(rule, s)) == Fold(rule, s)
  {
    if s != [] {
      var n := HeadLength(rule, s);
      var segs := Segments(rule, s);
      SegmentsRenderTheFold(rule, s[n..]);
      assert segs[1..] == Segments(rule, s[n..]);
      assert Fold(rule, s) == RenderOne(rule, segs[0]) + Fold(rule, s[n..]);
    }
  }

  lemma HeadSegment(rule: Rule, s: seq<string>)
    requires KeyDecides(rule) && s != []
    ensures var n := HeadLength(rule, s);
            && Segments(rule, s)[1..] == Segments(rule, s[n..])
            && Lines(Segments(rule, s)[0]) == s[..n]
            && IsLongRun(rule, Segments(rule, s)[0])
  {
    var n := HeadLength(rule, s);
    if FoldsAt(rule, s) {
      var k := rule.key(s[0]).value;
      forall x | x in s[..n] ensures rule.same(k, x) {
        var i :| 0 <= i < n && s[i] == x;
        if i > 0 {
          assert rule.same(k, s[1..][i - 1]);
        }
      }
    }
  }

  lemma HeadsApart(rule: Rule, s: seq<string>)
    requires KeyDecides(rule) && |Segments(rule, s)| > 1
    ensures Apart(rule, Segments(rule, s)[0], Segments(rule, s)[1])
  {
    var n := HeadLength(rule, s);
    var rest := s[n..];
    var left := Segments(rule, s)[0];
    HeadSegment(rule, s);
    HeadSegment(rule, rest);
    if FoldsAt(rule, s) {
      assert rest[0] == s[1..][n - 1];
      var last := Lines(left)[n - 1];
      assert last in left.run && rule.same(left.key, last);
    }
  }

  lemma {:induction false} SegmentsAreMaximal(rule: Rule, s: seq<string>)
    requires KeyDecides(rule)
    ensures var segs := Segments(rule, s);
            && (forall i | 0 <= i < |segs| :: IsLongRun(rule, segs[i]))
            && (forall i | 0 < i < |segs| :: Apart(rule, segs[i - 1], segs[i]))
  {
    if s != [] {
      var segs, tail := Segments(rule, s), Segments(rule, s[HeadLength(rule, s)..]);
      SegmentsAreMaximal(rule, s[HeadLength(rule, s)..]);
      HeadSegment(rule, s);
      forall i | 0 <= i < |segs| ensures IsLongRun(rule, segs[i]) {
        assert i > 0 ==> segs[i] == tail[i - 1];
      }
      forall i | 0 < i < |segs| ensures Apart(rule, segs[i - 1], segs[i]) {
        if i == 1 {
          HeadsApart(rule, s);
        } else {
          assert segs[i] == tail[i - 1] && segs[i - 1] == tail[i - 2];
        }
      }
    }
  }

  /** Kept lines at the head of the segments are the lines where no run opens. */
  lemma {:induction false} KeptStretch(rule: Rule, s: seq<string>, b: nat)
    requires b <= |Segments(rule, s)| && AllKept(Segments(rule, s)[..b])
    ensures b <= |s| && Flatten(Segments(rule, s)[..b]) == s[..b]
    ensures forall i | 0 <= i < b :: !FoldsAt(rule, s[i..])
  {
    if b > 0 {
      var segs, rest := Segments(rule, s)[..b], s[1..];
      assert segs[0].Kept?;
      assert segs[0] == Kept(s[0]) && segs[1..] == Segments(rule, rest)[..b - 1];
      KeptStretch(rule, rest, b - 1);
      forall i | 0 <= i < b ensures !FoldsAt(rule, s[i..]) {
        assert if i == 0 then s[i..] == s else s[i..] == rest[i - 1..];
      }
    }
  }

  lemma NoRunOpensNoLongRun(rule: Rule, s: seq<string>, b: nat)
    requires rule.least > 0
    requires b <= |s| && forall i | 0 <= i < b :: !FoldsAt(rule, s[i..])
    ensures NoLongRun(rule, s[..b])
  {
    var t := s[..b];
    forall i, k | 0 <= i <= |t| - rule.least && i < |t| && rule.key(t[i]) == Some(k)
      ensures exists j :: i < j < i + rule.least && !rule.same(k, t[j])
    {
      var f := Followers(rule, k, s[i..][1..]);
      assert !FoldsAt(rule, s[i..]) && s[i..][0] == t[i];
      var j := i + 1 + f;
      assert j < i + rule.least <= b && s[i..][1..][f] == s[j] == t[j];
      assert !rule.same(k, t[j]);
    }
  }

  lemma {:induction false} KeptStretchesHaveNoLongRun(rule: Rule, s: seq<string>,
                                                      a: nat, b: nat, stretch: seq<Segment>)
    requires KeyDecides(rule) && rule.least > 0
    requires a <= b <= |Segments(rule, s)| && stretch == Segments(rule, s)[a..b]
    requires AllKept(stretch)
    ensures NoLongRun(rule, Flatten(stretch))
    decreases |s|
  {
    if a == 0 {
      assert stretch == Segments(rule, s)[..b];
      KeptStretch(rule, s, b);
      NoRunOpensNoLongRun(rule, s, b);
    } else {
      var tail := s[HeadLength(rule, s)..];
      HeadSegment(rule, s);
      assert stretch == Segments(rule, s)[1..][a - 1..b - 1];
      KeptStretchesHaveNoLongRun(rule, tail, a - 1, b - 1, stretch);
    }
  }

  /** Main result on what a fold does, on any lines: the input is cut into kept lines and the maximal
      runs that are long enough; the output is each kept line as it was and each run's rendering. */
  lemma FoldCutsAtLongRuns(rule: Rule, s: seq<string>)
    requires KeyDecides(rule) && rule.least > 0
    ensures var segs := Segments(rule, s);
            && Flatten(segs) == s
            && Render(rule, segs) == Fold(rule, s)
            && CutsAtLongRuns(rule, segs)
  {
    var segs := Segments(rule, s);
    SegmentsConserveLines(rule, s);
    SegmentsRenderTheFold(rule, s);
    SegmentsAreMaximal(rule, s);
    forall a, b | 0 <= a <= b <= |segs| && AllKept(segs[a..b])
      ensures NoLongRun(rule, Flatten(segs[a..b]))
    {
      KeptStretchesHaveNoLongRun(rule, s, a, b, segs[a..b]);
    }
  }

  // ---- a second pass does nothing ---------------------------------------------------------

  predicate Settled(rule: Rule, s: seq<string>) {
    forall i | 0 <= i < |s| :: !FoldsAt(rule, s[i..])
  }

  lemma {:induction false} SettledTail(rule: Rule, s: seq<string>)
    requires s != []
    ensures Settled(rule, s) <==> !FoldsAt(rule, s) && Settled(rule, s[1..])
  {
    assert s[0..] == s;
    assert forall i | 0 <= i < |s| - 1 :: s[1..][i..] == s[i + 1..];
    if !FoldsAt(rule, s) && Settled(rule, s[1..]) {
      forall i | 0 <= i < |s| ensures !FoldsAt(rule, s[i..]) {
        if i > 0 {
          assert s[i..] == s[1..][i - 1..];
        }
      }
    }
  }

  lemma {:induction false} FoldOfSettled(rule: Rule, s: seq<string>)
    requires Settled(rule, s)
    ensures Fold(rule, s) == s
  {
    if s != [] {
      SettledTail(rule, s);
      FoldOfSettled(rule, s[1..]);
    }
  }

  /** Fewer lines than a run needs are left alone. */
  lemma {:induction false} FewLinesStay(rule: Rule, s: seq<string>)
    requires |s| < rule.least
    ensures Fold(rule, s) == s
  {
    if s != [] {
      FewLinesStay(rule, s[1..]);
    }
  }

  /** Folding what follows does not lengthen a run that was too short. */
  lemma {:induction false} FewFollowersStayFew(rule: Rule, u: string -> bool, head: string, k: string, s: seq<string>)
    requires Consistent(rule, u) && StableMarkers(rule, u)
    requires u(head) && rule.key(head) == Some(k)
    requires forall x | x in s :: u(x)
    requires Followers(rule, k, s) + 1 < rule.least
    ensures Followers(rule, k, Fold(rule, s)) <= Followers(rule, k, s)
  {
    if s == [] {
    } else if rule.same(k, s[0]) {
      assert rule.key(s[0]) == Some(k);
      FewFollowersStayFew(rule, u, head, k, s[1..]);
      assert Fold(rule, s)[1..] == Fold(rule, s[1..]);
    } else if FoldsAt(rule, s) {
      var k' := rule.key(s[0]).value;
      var m := rule.marker(s[0], k', RunAt(rule, s));
      assert u(m) && !rule.same(k, m);
    }
  }

  /** Idempotence: with consistent keys and stable markers the output holds no run to fold. */
  lemma {:induction false} FoldSettles(rule: Rule, u: string -> bool, s: seq<string>)
    requires Consistent(rule, u) && StableMarkers(rule, u) && rule.least >= 2
    requires forall x | x in s :: u(x)
    ensures Settled(rule, Fold(rule, s))
  {
    if s == [] {
    } else if !FoldsAt(rule, s) {
      FoldSettles(rule, u, s[1..]);
      SettledTail(rule, Fold(rule, s));
      assert Fold(rule, s)[1..] == Fold(rule, s[1..]);
      if rule.key(s[0]).Some? {
        FewFollowersStayFew(rule, u, s[0], rule.key(s[0]).value, s[1..]);
      }
    } else {
      var k, n := rule.key(s[0]).value, RunAt(rule, s);
      var rest, m := s[n..], rule.marker(s[0], k, n);
      FoldSettles(rule, u, rest);
      if rest != [] {
        assert rest[0] == s[1..][n - 1];
      }
      FewFollowersStayFew(rule, u, s[0], k, rest);
      var out := [m] + Fold(rule, rest);
      assert out[1..] == Fold(rule, rest);
      assert u(m) && (rule.same(k, m) <==> rule.key(m) == Some(k));
      SettledTail(rule, out);
      if rule.keepFirst {
        assert ([s[0]] + out)[1..] == out;
        SettledTail(rule, [s[0]] + out);
        assert Fold(rule, s) == [s[0]] + out;
      } else {
        assert Fold(rule, s) == out;
      }
    }
  }

  lemma FoldIdempotent(rule: Rule, u: string -> bool, s: seq<string>)
    requires Consistent(rule, u) && StableMarkers(rule, u) && rule.least >= 2
    requires forall x | x in s :: u(x)
    ensures Fold(rule, Fold(rule, s)) == Fold(rule, s)
  {
    FoldSettles(rule, u, s);
    FoldOfSettled(rule, Fold(rule, s));
  }

  // ---- what the output starts with --------------------------------------------------------

  lemma FoldHead(rule: Rule, s: seq<string>)
    requires s != [] && rule.keepFirst
    ensures Fold(rule, s) != [] && Fold(rule, s)[0] == s[0]
  {
  }

  lemma FirstKept(rule: Rule, s: seq<string>)
    requires s != [] && !FoldsAt(rule, s)
    ensures Fold(rule, s)[0] == s[0] && Fold(rule, s)[1..] == Fold(rule, s[1..])
  {
  }

  lemma FirstFolded(rule: Rule, s: seq<string>)
    requires s != [] && FoldsAt(rule, s) && rule.keepFirst
    ensures var n, out := RunAt(rule, s), Fold(rule, s);
            && |out| >= 2 && out[0] == s[0] && out[1] == rule.marker(s[0], rule.key(s[0]).value, n)
            && out[1..] == [out[1]] + Fold(rule, s[n..]) && out[2..] == Fold(rule, s[n..])
  {
    var n, k := RunAt(rule, s), rule.key(s[0]).value;
    TwoInFront(s[0], rule.marker(s[0], k, n), Fold(rule, s[n..]));
    assert Rendered(rule, s[0], k, n) == [s[0], rule.marker(s[0], k, n)];
  }

  lemma TwoInFront(a: string, b: string, s: seq<string>)
    ensures var out := [a, b] + s; out[1..] == [b] + s && out[2..] == s
  {
  }

  // ---- the output is a text's lines -------------------------------------------------------

  /** A marker is a closed line that may stand wherever any line of its run stands. */
  ghost predicate MarkersAreLines(rule: Rule, u: string -> bool) {
    forall a, b, k, n | u(a) && u(b) && rule.key(a) == Some(k) && (b == a || rule.same(k, b)) && IsLine(a) ::
      var m := rule.marker(a, k, n);
      && IsLine(m) && IsBreak(m[|m| - 1]) && m[0] != '\n'
      && (m[|m| - 1] == '\r' ==> b != "" && b[|b| - 1] == '\r')
  }

  lemma {:induction false} FoldGivesLines(rule: Rule, u: string -> bool, s: seq<string>)
    requires MarkersAreLines(rule, u) && rule.least >= 2
    requires LinesOfText(s) && forall x | x in s :: u(x)
    ensures LinesOfText(Fold(rule, s))
    ensures s != [] ==> Fold(rule, s) != [] && (Fold(rule, s)[0][0] == '\n' ==> s[0][0] == '\n')
  {
    if s == [] {
    } else if !FoldsAt(rule, s) {
      LinesTail(s, 1);
      FoldGivesLines(rule, u, s[1..]);
      assert |s| > 1 ==> Follows(s[0], s[1]);
      LinesCons(s[0], Fold(rule, s[1..]));
    } else {
      var n := RunAt(rule, s);
      LinesTail(s, n);
      FoldGivesLines(rule, u, s[n..]);
      RenderedLines(rule, u, s, Fold(rule, s[n..]));
    }
  }

  /** A rendered run in front of the folded rest. */
  lemma RenderedLines(rule: Rule, u: string -> bool, s: seq<string>, rest: seq<string>)
    requires MarkersAreLines(rule, u) && rule.least >= 2
    requires LinesOfText(s) && s != [] && FoldsAt(rule, s)
    requires u(s[0]) && u(s[RunAt(rule, s) - 1])
    requires LinesOfText(rest)
    requires rest != [] ==>
      RunAt(rule, s) < |s| && (rest[0][0] == '\n' ==> s[RunAt(rule, s)][0] == '\n')
    ensures var k, n := rule.key(s[0]).value, RunAt(rule, s);
            LinesOfText(Rendered(rule, s[0], k, n) + rest) && rule.marker(s[0], k, n)[0] != '\n'
  {
    var k, n := rule.key(s[0]).value, RunAt(rule, s);
    var m := rule.marker(s[0], k, n);
    assert s[n - 1] == s[1..][n - 2];
    assert IsLine(s[0]) && IsLine(m);
    if rest != [] {
      assert Follows(s[n - 1], s[n]) && IsLine(rest[0]);
    }
    LinesCons(m, rest);
    if rule.keepFirst {
      assert Follows(s[0], s[1]);
      LinesCons(s[0], [m] + rest);
      assert [s[0]] + ([m] + rest) == Rendered(rule, s[0], k, n) + rest;
    }
  }

  /** What holds of the lines and of their markers holds of the output. */
  lemma {:induction false} FoldKeepsAll(rule: Rule, p: string -> bool, q: string -> bool, s: seq<string>)
    requires forall x | x in s :: p(x)
    requires forall x | p(x) :: q(x)
    requires forall x, k, n | p(x) && rule.key(x) == Some(k) :: q(rule.marker(x, k, n))
    ensures forall x | x in Fold(rule, s) :: q(x)
    decreases |s|
  {
    if s != [] {
      FoldKeepsAll(rule, p, q, s[HeadLength(rule, s)..]);
      assert p(s[0]);
    }
  }

  /** The runs are the lines of one key. */
  ghost predicate ByKey(rule: Rule) {
    forall k, l :: rule.same(k, l) <==> rule.key(l) == Some(k)
  }

  /** A run of lines of one key, with a line of another behind it. */
  lemma KeyRun(rule: Rule, run: seq<string>, k: string, rest: seq<string>)
    requires ByKey(rule) && run != [] && forall i | 0 <= i < |run| :: rule.key(run[i]) == Some(k)
    requires rest != [] ==> rule.key(rest[0]) != Some(k)
    ensures Fold(rule, run + rest)
         == (if rule.least <= |run| then Rendered(rule, run[0], k, |run|) else run) + Fold(rule, rest)
  {
    if rule.least <= |run| {
      RunIsFolded(rule, run, k, rest);
    } else {
      ShortRunIsKept(rule, run, k, rest);
    }
  }

  // ---- markers that are folded again ------------------------------------------------------

  function Copies<T>(x: T, n: nat): (s: seq<T>)
    ensures |s| == n && forall i | 0 <= i < n :: s[i] == x
  {
    if n == 0 then [] else [x] + Copies(x, n - 1)
  }

  /** Lines without a key. */
  lemma {:induction false} KeylessAreKept(rule: Rule, x: string, n: nat, rest: seq<string>)
    requires rule.key(x) == None
    ensures Fold(rule, Copies(x, n) + rest) == Copies(x, n) + Fold(rule, rest)
  {
    if n == 0 {
      assert Copies(x, 0) + rest == rest;
    } else {
      var s := Copies(x, n) + rest;
      assert s[0] == x && s[1..] == Copies(x, n - 1) + rest;
      KeylessAreKept(rule, x, n - 1, rest);
      Regroup([x], Copies(x, n - 1), Fold(rule, rest));
    }
  }

  lemma {:induction false} JoinOfCopies(x: string, n: nat)
    ensures |Join(Copies(x, n))| == n * |x|
  {
    if n > 0 {
      JoinOfCopies(x, n - 1);
      assert Copies(x, n)[1..] == Copies(x, n - 1);
    }
  }

  lemma {:induction false} CopiesAreLines(x: string, n: nat)
    requires IsLine(x) && x[|x| - 1] == '\n'
    ensures LinesOfText(Copies(x, n))
  {
  }

  /** Two blocks of equal lines make a text of just these lines. */
  lemma BlocksSplit(a: string, m: nat, b: string, n: nat)
    requires IsLine(a) && a[|a| - 1] == '\n' && IsLine(b) && b[|b| - 1] == '\n'
    ensures SplitLines(Join(Copies(a, m) + Copies(b, n))) == Copies(a, m) + Copies(b, n)
  {
    CopiesAreLines(a, m);
    CopiesAreLines(b, n);
    LinesAppend(Copies(a, m), Copies(b, n));
    SplitOfJoin(Copies(a, m) + Copies(b, n));
  }

  /** A marker with a key of its own, behind a run and before enough copies of itself, is folded
      in a second pass. */
  lemma MarkersReopen(rule: Rule, x: string, k: string, m: string, k': string)
    requires !rule.keepFirst && rule.least >= 2
    requires rule.key(x) == Some(k) && rule.same(k, x) && m == rule.marker(x, k, rule.least)
    requires rule.key(m) == Some(k') && rule.same(k', m) && !rule.same(k, m)
    ensures Fold(rule, Copies(x, rule.least) + Copies(m, rule.least - 1)) == Copies(m, rule.least)
    ensures Fold(rule, Copies(m, rule.least)) == [rule.marker(m, k', rule.least)]
  {
    RunIsFolded(rule, Copies(x, rule.least), k, Copies(m, rule.least - 1));
    FewLinesStay(rule, Copies(m, rule.least - 1));
    RunIsFolded(rule, Copies(m, rule.least), k', []);
    assert Copies(m, rule.least) + [] == Copies(m, rule.least);
  }
}
