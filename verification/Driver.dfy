/**
  The shrink-only driver of `compress` and `compress_extra`: a list of passes runs in order; the
  result of a pass is kept only if it is strictly shorter, and a pass that raises is skipped.
 */
module Driver {
  import opened Wrappers

  /** A pass; `None` stands for an exception or a result that is not a string. */
  datatype Pass = Pass(name: string, run: string -> Option<string>)

  predicate Applies(p: Pass, cur: string) {
    var out := p.run(cur);
    out.Some? && |out.value| < |cur|
  }

  function Step(p: Pass, cur: string): (out: string)
    ensures out == cur <==> !Applies(p, cur)
    ensures |out| <= |cur|
  {
    if Applies(p, cur) then p.run(cur).value else cur
  }

  function RunAll(ps: seq<Pass>, cur: string): string {
    if ps == [] then cur else RunAll(ps[1..], Step(ps[0], cur))
  }

  lemma RunAllCons(p: Pass, ps: seq<Pass>, t: string)
    ensures RunAll([p] + ps, t) == RunAll(ps, Step(p, t))
  {
    assert ([p] + ps)[1..] == ps;
  }

  function AppliedNames(ps: seq<Pass>, cur: string): seq<string> {
    if ps == [] then [] else
      (if Applies(ps[0], cur) then [ps[0].name] else []) + AppliedNames(ps[1..], Step(ps[0], cur))
  }

  method RunPipeline(ps: seq<Pass>, text: string) returns (cur: string, applied: seq<string>)
    ensures cur == RunAll(ps, text) && applied == AppliedNames(ps, text)
  {
    cur, applied := text, [];
    for i := 0 to |ps|
      invariant RunAll(ps[i..], cur) == RunAll(ps, text)
      invariant applied + AppliedNames(ps[i..], cur) == AppliedNames(ps, text)
    {
      assert ps[i..][1..] == ps[i + 1..];
      ghost var before, rest := applied, AppliedNames(ps[i + 1..], Step(ps[i], cur));
      match ps[i].run(cur) {
        case None =>
        case Some(out) =>
          if |out| < |cur| {
            cur, applied := out, applied + [ps[i].name];
            assert before + ([ps[i].name] + rest) == applied + rest;
          }
      }
      assert [] + rest == rest;
    }
  }

  function Compressed(ps: seq<Pass>, text: string): string {
    var out := RunAll(ps, text);
    if text == "" then text else if |out| < |text| then out else text
  }

  /** `compress`, and with the other list of passes `compress_extra`. */
  method Compress(ps: seq<Pass>, text: string) returns (r: string)
    ensures r == Compressed(ps, text)
  {
    if text == "" {
      return text;
    }
    var out, _ := RunPipeline(ps, text);
    r := if |out| < |text| then out else text;
  }

  datatype Report = Report(before: nat, after: nat, saved: nat, applied: seq<string>)

  method CompressReport(ps: seq<Pass>, text: string) returns (r: Report)
    ensures r.before == |text|
    ensures r.after == |Compressed(ps, text)|
    ensures r.saved == r.before - r.after
    ensures r.applied == AppliedNames(ps, text)
  {
    var out, applied := RunPipeline(ps, text);
    Accounting(ps, text);
    if |out| >= |text| {
      out, applied := text, [];
    }
    r := Report(|text|, |out|, |text| - |out|, applied);
  }

  // ---- what is recorded -------------------------------------------------------------------

  lemma {:induction false} RunInTwo(a: seq<Pass>, b: seq<Pass>, t: string)
    ensures RunAll(a + b, t) == RunAll(b, RunAll(a, t))
    ensures AppliedNames(a + b, t) == AppliedNames(a, t) + AppliedNames(b, RunAll(a, t))
    decreases |a|
  {
    if a == [] {
      assert a + b == b;
    } else {
      var u := Step(a[0], t);
      assert (a + b)[0] == a[0] && (a + b)[1..] == a[1..] + b;
      RunInTwo(a[1..], b, u);
      Regroup(if Applies(a[0], t) then [a[0].name] else [], AppliedNames(a[1..], u), AppliedNames(b, RunAll(a, t)));
    }
  }

  /** Main result: pass number `i` runs on what the passes before it left. A strictly shorter result is
      kept and the name recorded behind the names so far; any other changes nothing. */
  lemma KeptPassesAreRecorded(ps: seq<Pass>, t: string, i: nat)
    requires i < |ps|
    ensures AppliedNames([], t) == [] && RunAll([], t) == t
    ensures var cur, names := RunAll(ps[..i], t), AppliedNames(ps[..i], t);
            var out := ps[i].run(cur);
            if out.Some? && |out.value| < |cur|
            then RunAll(ps[..i + 1], t) == out.value && AppliedNames(ps[..i + 1], t) == names + [ps[i].name]
            else RunAll(ps[..i + 1], t) == cur && AppliedNames(ps[..i + 1], t) == names
  {
    assert ps[..i + 1] == ps[..i] + [ps[i]];
    RunInTwo(ps[..i], [ps[i]], t);
  }

  // ---- accounting -------------------------------------------------------------------------

  /** `a` is obtained from `b` by leaving elements out. */
  predicate IsSubsequence(a: seq<string>, b: seq<string>) {
    a == [] || (b != [] && (if a[0] == b[0] then IsSubsequence(a[1..], b[1..]) else IsSubsequence(a, b[1..])))
  }

  function Names(ps: seq<Pass>): seq<string> {
    if ps == [] then [] else [ps[0].name] + Names(ps[1..])
  }

  lemma {:induction false} NamesAre(ps: seq<Pass>, ns: seq<string>)
    requires |ps| == |ns| && forall i | 0 <= i < |ps| :: ps[i].name == ns[i]
    ensures Names(ps) == ns
  {
    if ps != [] {
      NamesAre(ps[1..], ns[1..]);
      assert ns == [ns[0]] + ns[1..];
    }
  }

  lemma {:induction false} Accounting(ps: seq<Pass>, text: string)
    ensures |text| - |RunAll(ps, text)| >= |AppliedNames(ps, text)|
    ensures AppliedNames(ps, text) == [] <==> RunAll(ps, text) == text
    ensures RunAll(ps, text) == text <==> |RunAll(ps, text)| == |text|
    decreases |ps|
  {
    if ps != [] {
      Accounting(ps[1..], Step(ps[0], text));
    }
  }

  lemma {:induction false} ShorterSubsequence(a: seq<string>, b: seq<string>)
    requires IsSubsequence(a, b) && a != []
    ensures IsSubsequence(a[1..], b)
    decreases |b|, 0
  {
    if a[0] == b[0] {
      assert b == [b[0]] + b[1..];
      LongerSequence(a[1..], b[0], b[1..]);
    } else {
      ShorterSubsequence(a, b[1..]);
      assert b == [b[0]] + b[1..];
      LongerSequence(a[1..], b[0], b[1..]);
    }
  }

  lemma {:induction false} LongerSequence(a: seq<string>, x: string, b: seq<string>)
    requires IsSubsequence(a, b)
    ensures IsSubsequence(a, [x] + b)
    decreases |b|, 1
  {
    assert ([x] + b)[1..] == b;
    if a != [] && a[0] == x {
      ShorterSubsequence(a, b);
    }
  }

  lemma {:induction false} AppliedInOrder(ps: seq<Pass>, text: string)
    ensures IsSubsequence(AppliedNames(ps, text), Names(ps))
    decreases |ps|
  {
    if ps != [] {
      var rest := AppliedNames(ps[1..], Step(ps[0], text));
      AppliedInOrder(ps[1..], Step(ps[0], text));
      assert Names(ps)[1..] == Names(ps[1..]);
      if Applies(ps[0], text) {
        assert AppliedNames(ps, text)[1..] == rest;
      } else {
        assert AppliedNames(ps, text) == rest;
        LongerSequence(rest, ps[0].name, Names(ps[1..]));
      }
    }
  }

  // ---- fixpoints --------------------------------------------------------------------------

  lemma CompressedIsRunAll(ps: seq<Pass>, text: string)
    ensures Compressed(ps, text) == RunAll(ps, text)
  {
    Accounting(ps, text);
  }

  lemma {:induction false} RunAllFixpoint(ps: seq<Pass>, y: string)
    ensures RunAll(ps, y) == y <==> forall i | 0 <= i < |ps| :: !Applies(ps[i], y)
  {
    if ps != [] {
      var z := Step(ps[0], y);
      Accounting(ps[1..], z);
      RunAllFixpoint(ps[1..], y);
      assert forall i | 1 <= i < |ps| :: ps[i] == ps[1..][i - 1];
    }
  }

  /** Main result: whatever the passes do, a text is a fixpoint of the driver exactly when no pass
      on its own makes it shorter. */
  lemma FixpointIff(ps: seq<Pass>, y: string)
    ensures Compressed(ps, y) == y <==> forall i | 0 <= i < |ps| :: !Applies(ps[i], y)
  {
    CompressedIsRunAll(ps, y);
    RunAllFixpoint(ps, y);
  }

  function Rounds(ps: seq<Pass>, x: string, n: nat): string {
    if n == 0 then x else Compressed(ps, Rounds(ps, x, n - 1))
  }

  lemma {:induction false} RoundsShrink(ps: seq<Pass>, x: string, n: nat)
    ensures Compressed(ps, Rounds(ps, x, n)) == Rounds(ps, x, n) || |Rounds(ps, x, n)| + n <= |x|
  {
    if n > 0 {
      var y := Rounds(ps, x, n - 1);
      RoundsShrink(ps, x, n - 1);
      Accounting(ps, y);
    }
  }

  /** Main result: iterating the driver reaches a fixpoint within `|x|` rounds. */
  lemma ReachesFixpoint(ps: seq<Pass>, x: string)
    ensures var y := Rounds(ps, x, |x|); Compressed(ps, y) == y
  {
    var y := Rounds(ps, x, |x|);
    RoundsShrink(ps, x, |x|);
    Accounting(ps, y);
  }
}
