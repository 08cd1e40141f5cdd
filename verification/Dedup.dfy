/**
  `dedup_lines` (engine/simplicio_compress.py): a run of identical lines becomes its first line
  and a marker counting the others, and a reader can expand the marker again.
 */
module Dedup {
  import opened RunFold
  import opened Text
  import opened Wrappers

  const BEFORE: string := [ELLIPSIS] + " ("
  const AFTER: string := " repeated lines collapsed)"

  /** The number in a text that is exactly one marker. */
  function MarkerCount(c: string): Option<nat> {
    NumberIn(BEFORE, AFTER, c)
  }

  /** The regular expression search of the source: the text ends with a marker. */
  predicate EndsWithMarker(c: string) {
    MarkerCount(c).Some? || (c != "" && EndsWithMarker(c[1..]))
  }

  function MarkerText(n: nat): string {
    Numbered(BEFORE, n, AFTER)
  }

  function Key(l: string): Option<string> {
    if Content(l) == "" || EndsWithMarker(Content(l)) then None else Some(l)
  }

  predicate Same(k: string, l: string) {
    l == k
  }

  function Marker(first: string, k: string, run: nat): string {
    MarkerText(if run == 0 then 0 else run - 1) + EolFor(first)
  }

  const DEDUP: Rule := Rule(Key, Same, 2, true, Marker)

  function DedupLines(ls: seq<string>): seq<string> {
    Fold(DEDUP, ls)
  }

  function DedupText(t: string): string {
    Join(DedupLines(SplitLines(t)))
  }

  method Dedup(text: string) returns (r: string)
    ensures r == DedupText(text)
  {
    var out := FoldRuns(DEDUP, SplitLines(text));
    r := Join(out);
  }

  // ---- markers ----------------------------------------------------------------------------

  lemma PlainLiterals()
    ensures NoBreaks(BEFORE) && NoBreaks(AFTER)
  {
  }

  lemma MarkerReadsBack(n: nat)
    ensures MarkerCount(MarkerText(n)) == Some(n)
    ensures NoBreaks(MarkerText(n)) && MarkerText(n) != "" && MarkerText(n)[0] == ELLIPSIS
  {
    PlainLiterals();
    NumberReadsBack(BEFORE, n, AFTER);
    NoBreaksInNumbered(BEFORE, n, AFTER);
  }

  lemma MarkerHasNoKey(first: string, k: string, run: nat)
    requires IsLine(first)
    ensures Key(Marker(first, k, run)) == None
  {
    var n := if run == 0 then 0 else run - 1;
    MarkerReadsBack(n);
    MarkerLine(MarkerText(n), first);
  }

  lemma RuleIsWellBehaved()
    ensures Consistent(DEDUP, IsLine) && StableMarkers(DEDUP, IsLine) && MarkersAreLines(DEDUP, IsLine)
  {
    forall a, k, n: nat | IsLine(a) ensures var m := Marker(a, k, n);
                                       && IsLine(m) && IsBreak(m[|m| - 1]) && m[0] != '\n' && Key(m) == None
                                       && (m[|m| - 1] == '\r' ==> a[|a| - 1] == '\r') {
      MarkerReadsBack(if n == 0 then 0 else n - 1);
      MarkerLine(MarkerText(if n == 0 then 0 else n - 1), a);
      MarkerHasNoKey(a, k, n);
    }
  }

  // ---- what it does -----------------------------------------------------------------------

  predicate HasMarkerForm(c: string, a: string, d: string) {
    d != "" && All(IsDigit, d) && c == a + ("\U{2026} (" + (d + " repeated lines collapsed)"))
  }

  /** The contents that are not folded for ending with a marker. */
  lemma MarkerEndsAre(c: string)
    ensures EndsWithMarker(c) <==> exists a, d :: HasMarkerForm(c, a, d)
  {
    if EndsWithMarker(c) {
      FormOfMarker(c);
    }
    if a, d :| HasMarkerForm(c, a, d) {
      MarkerOfForm(c, a, d);
    }
  }

  lemma CountOfForm(c: string, d: string)
    requires HasMarkerForm(c, "", d)
    ensures MarkerCount(c).Some?
  {
    var tail := d + AFTER;
    assert c == BEFORE + tail;
    AfterOfAppend(BEFORE, tail);
    assert tail[..|d|] == d && tail[|d|..] == AFTER && AFTER[0] == ' ';
    SpanUnique(IsDigit, tail, |d|);
  }

  lemma FormOfCount(c: string) returns (d: string)
    requires MarkerCount(c).Some?
    ensures HasMarkerForm(c, "", d)
  {
    var tail := After(BEFORE, c).value;
    d := tail[..Span(IsDigit, tail)];
    assert tail == d + AFTER;
    assert c == BEFORE + tail;
    assert "" + c == c;
  }

  lemma {:induction false} FormOfMarker(c: string)
    requires EndsWithMarker(c)
    ensures exists a, d :: HasMarkerForm(c, a, d)
  {
    if MarkerCount(c).Some? {
      var d := FormOfCount(c);
    } else {
      FormOfMarker(c[1..]);
      var a, d :| HasMarkerForm(c[1..], a, d);
      assert c == [c[0]] + c[1..];
      Regroup([c[0]], a, "\U{2026} (" + (d + " repeated lines collapsed)"));
      assert HasMarkerForm(c, [c[0]] + a, d);
    }
  }

  lemma {:induction false} MarkerOfForm(c: string, a: string, d: string)
    requires HasMarkerForm(c, a, d)
    ensures EndsWithMarker(c)
  {
    if a == "" {
      CountOfForm(c, d);
    } else {
      assert c[1..] == a[1..] + ("\U{2026} (" + (d + " repeated lines collapsed)"));
      MarkerOfForm(c[1..], a[1..], d);
    }
  }

  lemma MarkerReads(first: string, run: nat)
    requires run > 0
    ensures Marker(first, first, run)
         == "\U{2026} (" + Dec(run - 1) + " repeated lines collapsed)" + EolFor(first)
  {
  }

  /** A line standing two or more times in a row becomes itself and a marker; one that stands alone, is blank
      or ends with a marker stays. */
  lemma CopiesAreFolded(l: string, n: nat, rest: seq<string>)
    requires n > 0 && (rest != [] ==> rest[0] != l)
    ensures DedupLines(Copies(l, n) + rest)
         == (if n == 1 || Content(l) == "" || EndsWithMarker(Content(l)) then Copies(l, n)
             else [l, Marker(l, l, n)]) + DedupLines(rest)
  {
    if Content(l) == "" || EndsWithMarker(Content(l)) {
      KeylessAreKept(DEDUP, l, n, rest);
    } else if n == 1 {
      ShortRunIsKept(DEDUP, Copies(l, n), l, rest);
    } else {
      RunIsFolded(DEDUP, Copies(l, n), l, rest);
    }
  }

  // ---- expansion --------------------------------------------------------------------------

  /** Reading one more line: a marker stands for copies of the line decoded last. */
  function ExpandLine(decoded: seq<string>, l: string): seq<string> {
    match MarkerCount(Content(l))
    case Some(n) => if decoded == [] then [l] else decoded + Copies(decoded[|decoded| - 1], n)
    case None => decoded + [l]
  }

  function ExpandFrom(decoded: seq<string>, ls: seq<string>): seq<string>
    decreases |ls|
  {
    if ls == [] then decoded else ExpandFrom(ExpandLine(decoded, ls[0]), ls[1..])
  }

  function Expand(ls: seq<string>): seq<string> {
    ExpandFrom([], ls)
  }

  function ExpandText(t: string): string {
    Join(Expand(SplitLines(t)))
  }

  lemma {:induction false} ExpandRun(decoded: seq<string>, ls: seq<string>, cur: string, n: nat)
    requires n <= |ls| && forall i | 0 <= i < n :: ls[i] == cur
    requires MarkerCount(Content(cur)) == None
    ensures ExpandFrom(decoded, ls) == ExpandFrom(decoded + Copies(cur, n), ls[n..])
    decreases n
  {
    if n == 0 {
      assert decoded + Copies(cur, 0) == decoded;
    }
    if n > 0 {
      ExpandRun(decoded + [cur], ls[1..], cur, n - 1);
      assert ls[1..][n - 1..] == ls[n..];
      assert decoded + [cur] + Copies(cur, n - 1) == decoded + Copies(cur, n);
    }
  }

  lemma ExpandStep(decoded: seq<string>, l: string, rest: seq<string>)
    ensures ExpandFrom(decoded, [l] + rest) == ExpandFrom(ExpandLine(decoded, l), rest)
  {
    assert ([l] + rest)[1..] == rest;
  }

  lemma OneMoreCopy(decoded: seq<string>, cur: string, n: nat)
    requires n > 0
    ensures decoded + [cur] + Copies(cur, n - 1) == decoded + Copies(cur, n)
  {
  }

  /** A folded run decodes to the run. */
  lemma ExpandFolded(decoded: seq<string>, cur: string, n: nat, rest: seq<string>)
    requires IsLine(cur) && n > 0
    requires MarkerCount(Content(cur)) == None
    ensures ExpandFrom(decoded, [cur, Marker(cur, cur, n)] + rest)
         == ExpandFrom(decoded + Copies(cur, n), rest)
  {
    var m := Marker(cur, cur, n);
    MarkerReadsBack(n - 1);
    MarkerLine(MarkerText(n - 1), cur);
    assert [cur, m] + rest == [cur] + ([m] + rest);
    ExpandStep(decoded, cur, [m] + rest);
    ExpandStep(decoded + [cur], m, rest);
    OneMoreCopy(decoded, cur, n);
  }

  /** Dedup is lossless, whatever was decoded before and even when `s` already holds markers. */
  lemma {:induction false} ExpandUndoesDedup(decoded: seq<string>, s: seq<string>)
    requires forall x | x in s :: IsLine(x)
    ensures ExpandFrom(decoded, DedupLines(s)) == ExpandFrom(decoded, s)
    decreases |s|
  {
    if s == [] {
    } else if !FoldsAt(DEDUP, s) {
      ExpandUndoesDedup(ExpandLine(decoded, s[0]), s[1..]);
      assert DedupLines(s)[1..] == DedupLines(s[1..]);
    } else {
      var cur, n := s[0], RunAt(DEDUP, s);
      RunIsCopies(s);
      ExpandRun(decoded, s, cur, n);
      ExpandUndoesDedup(decoded + Copies(cur, n), s[n..]);
      assert DedupLines(s) == [cur, Marker(cur, cur, n)] + DedupLines(s[n..]);
      ExpandFolded(decoded, cur, n, DedupLines(s[n..]));
    }
  }

  lemma RunIsCopies(s: seq<string>)
    requires s != [] && FoldsAt(DEDUP, s)
    ensures forall i | 0 <= i < RunAt(DEDUP, s) :: s[i] == s[0]
    ensures MarkerCount(Content(s[0])) == None
  {
    forall i | 0 <= i < RunAt(DEDUP, s) ensures s[i] == s[0] {
      assert i > 0 ==> Same(s[0], s[1..][i - 1]);
    }
  }

  lemma {:induction false} ExpandOfMarkerFree(decoded: seq<string>, s: seq<string>)
    requires MarkerFree(s)
    ensures ExpandFrom(decoded, s) == decoded + s
    decreases |s|
  {
    if s != [] {
      ExpandOfMarkerFree(decoded + [s[0]], s[1..]);
      assert decoded + [s[0]] + s[1..] == decoded + s;
    }
  }

  // ---- main results on texts --------------------------------------------------------------

  lemma DedupTextSplits(t: string)
    ensures SplitLines(DedupText(t)) == DedupLines(SplitLines(t))
  {
    RuleIsWellBehaved();
    SplitGivesLines(t);
    FoldGivesLines(DEDUP, IsLine, SplitLines(t));
    SplitOfJoin(DedupLines(SplitLines(t)));
  }

  predicate MarkerFree(ls: seq<string>) {
    forall x | x in ls :: MarkerCount(Content(x)) == None
  }

  /** Main result: expanding the output gives what expanding the input gives; a text that holds
      no marker is recovered exactly. */
  lemma DedupIsLossless(t: string)
    ensures ExpandText(DedupText(t)) == ExpandText(t)
    ensures MarkerFree(SplitLines(t)) ==> ExpandText(DedupText(t)) == t
  {
    var ls := SplitLines(t);
    DedupTextSplits(t);
    SplitGivesLines(t);
    ExpandUndoesDedup([], ls);
    if MarkerFree(ls) {
      ExpandOfMarkerFree([], ls);
      assert [] + ls == ls;
      JoinOfSplit(t);
    }
  }

  lemma DedupIsIdempotent(t: string)
    ensures DedupText(DedupText(t)) == DedupText(t)
  {
    DedupTextSplits(t);
    RuleIsWellBehaved();
    SplitGivesLines(t);
    FoldIdempotent(DEDUP, IsLine, SplitLines(t));
  }

  /** No line of the output repeats the one before it, blank lines and markers aside; and this
      is exactly when dedup has nothing to do. */
  lemma DedupFixpoint(t: string)
    ensures DedupText(t) == t <==> NoRepeats(SplitLines(t))
    ensures NoRepeats(SplitLines(DedupText(t)))
  {
    var s := SplitLines(t);
    RuleIsWellBehaved();
    SplitGivesLines(t);
    DedupTextSplits(t);
    JoinOfSplit(t);
    FoldSettles(DEDUP, IsLine, s);
    SettledIsNoRepeats(DedupLines(s));
    SettledIsNoRepeats(s);
    if NoRepeats(s) {
      FoldOfSettled(DEDUP, s);
    }
  }

  predicate NoRepeats(s: seq<string>) {
    forall i | 0 < i < |s| :: s[i] == s[i - 1] ==> Key(s[i]) == None
  }

  lemma SettledIsNoRepeats(s: seq<string>)
    ensures Settled(DEDUP, s) <==> NoRepeats(s)
  {
    if Settled(DEDUP, s) {
      forall i | 0 < i < |s| && s[i] == s[i - 1] ensures Key(s[i]) == None {
        var w := s[i - 1..];
        assert !FoldsAt(DEDUP, w);
        assert w[1..][0] == s[i];
      }
    }
    if NoRepeats(s) {
      forall i | 0 <= i < |s| ensures !FoldsAt(DEDUP, s[i..]) {
        var w := s[i..];
        if i + 1 < |s| {
          assert w[1..][0] == s[i + 1];
        }
      }
    }
  }
}
