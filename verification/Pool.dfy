/**
  The semaphore pool of `_legacy` (bench/prism_benchmark_852.py) as a state machine: in any order,
  each task takes a permit, starts work, finishes work and gives the permit back.
 */
module Pool {

  datatype Phase = Waiting | Holding | Working | Left | Done

  /** The semaphore, `active[0]`, `active[1]` and the `invocations` counter; and for every task how
      far it has come. */
  datatype State = State(
    phases: seq<Phase>,
    permits: int,
    active: int,
    peak: int,
    invocations: map<string, nat>)

  function Start(n: nat, cap: nat): State {
    State(seq(n, _ => Waiting), cap, 0, 0, map[])
  }

  predicate Enabled(s: State, i: nat) {
    i < |s.phases| && !s.phases[i].Done? && (s.phases[i].Waiting? ==> s.permits > 0)
  }

  function Count(invocations: map<string, nat>, id: string): nat {
    if id in invocations then invocations[id] else 0
  }

  /** The next step of task `i`: `async with semaphore`, the two ends of `_work`, the release. */
  function Step(tasks: seq<string>, s: State, i: nat): State
    requires |s.phases| == |tasks| && Enabled(s, i)
  {
    match s.phases[i]
    case Waiting => s.(phases := s.phases[i := Holding], permits := s.permits - 1)
    case Holding =>
      s.(phases := s.phases[i := Working],
         invocations := s.invocations[tasks[i] := Count(s.invocations, tasks[i]) + 1],
         active := s.active + 1,
         peak := if s.active + 1 > s.peak then s.active + 1 else s.peak)
    case Working => s.(phases := s.phases[i := Left], active := s.active - 1)
    case Left => s.(phases := s.phases[i := Done], permits := s.permits + 1)
    case Done => s
  }

  /** `order` is a schedule that leads from `s` to `t`. */
  predicate IsRun(tasks: seq<string>, s: State, order: seq<nat>, t: State)
    decreases |order|
  {
    if order == [] then s == t
    else |s.phases| == |tasks| && Enabled(s, order[0]) && IsRun(tasks, Step(tasks, s, order[0]), order[1..], t)
  }

  predicate Finished(s: State) {
    forall i | 0 <= i < |s.phases| :: s.phases[i].Done?
  }

  // ---- counting tasks ---------------------------------------------------------------------

  /** The sum of the weights of the phases. */
  function Sum(w: Phase -> nat, phases: seq<Phase>): nat {
    if phases == [] then 0 else w(phases[0]) + Sum(w, phases[1..])
  }

  lemma {:induction false} SumOfUpdate(w: Phase -> nat, phases: seq<Phase>, i: nat, p: Phase)
    requires i < |phases|
    ensures Sum(w, phases[i := p]) == Sum(w, phases) - w(phases[i]) + w(p)
  {
    if i > 0 {
      SumOfUpdate(w, phases[1..], i - 1, p);
      assert phases[i := p][1..] == phases[1..][i - 1 := p];
    } else {
      assert phases[i := p][1..] == phases[1..];
    }
  }

  lemma {:induction false} SumOfConstant(w: Phase -> nat, phases: seq<Phase>, p: Phase)
    requires forall i | 0 <= i < |phases| :: phases[i] == p
    ensures Sum(w, phases) == |phases| * w(p)
  {
    if phases != [] {
      SumOfConstant(w, phases[1..], p);
      assert |phases| * w(p) == w(p) + (|phases| - 1) * w(p);
    }
  }

  lemma {:induction false} SumBound(w: Phase -> nat, v: Phase -> nat, phases: seq<Phase>)
    requires forall p :: w(p) <= v(p)
    ensures Sum(w, phases) <= Sum(v, phases)
  {
    if phases != [] {
      SumBound(w, v, phases[1..]);
    }
  }

  function One(p: Phase): nat { 1 }

  function IsWorking(p: Phase): nat { if p.Working? then 1 else 0 }

  function Holds(p: Phase): nat { if p.Holding? || p.Working? || p.Left? then 1 else 0 }

  function StepsLeft(p: Phase): nat {
    match p
    case Waiting => 4
    case Holding => 3
    case Working => 2
    case Left => 1
    case Done => 0
  }

  /** Starts and finishes of `_work` that are still to come. */
  function WorkLeft(p: Phase): nat {
    match p
    case Waiting => 2
    case Holding => 2
    case Working => 1
    case Left => 0
    case Done => 0
  }

  predicate Began(p: Phase) {
    p.Working? || p.Left? || p.Done?
  }

  /** How often a task called `id` has begun. */
  function Begun(tasks: seq<string>, phases: seq<Phase>, id: string): nat
    requires |tasks| == |phases|
  {
    if tasks == [] then 0 else
      (if tasks[0] == id && Began(phases[0]) then 1 else 0) + Begun(tasks[1..], phases[1..], id)
  }

  lemma {:induction false} BegunOfUpdate(tasks: seq<string>, phases: seq<Phase>, i: nat, p: Phase, id: string)
    requires |tasks| == |phases| && i < |tasks|
    ensures Begun(tasks, phases[i := p], id) ==
            Begun(tasks, phases, id) - (if tasks[i] == id && Began(phases[i]) then 1 else 0)
                                     + (if tasks[i] == id && Began(p) then 1 else 0)
  {
    if i > 0 {
      BegunOfUpdate(tasks[1..], phases[1..], i - 1, p, id);
      assert phases[i := p][1..] == phases[1..][i - 1 := p];
    } else {
      assert phases[i := p][1..] == phases[1..];
    }
  }

  // ---- the invariant ----------------------------------------------------------------------

  ghost predicate Inv(tasks: seq<string>, cap: nat, s: State) {
    && |s.phases| == |tasks|
    && s.permits >= 0
    && s.permits + Sum(Holds, s.phases) == cap
    && s.active == Sum(IsWorking, s.phases)
    && s.active <= s.peak <= cap && s.peak <= |tasks|
    && (forall id :: Count(s.invocations, id) == Begun(tasks, s.phases, id))
    && (forall id | id in s.invocations :: s.invocations[id] > 0)
    && (forall i | 0 <= i < |tasks| && Began(s.phases[i]) :: s.peak >= 1)
  }

  lemma StartInv(tasks: seq<string>, cap: nat)
    ensures Inv(tasks, cap, Start(|tasks|, cap))
  {
    var s := Start(|tasks|, cap);
    SumOfConstant(Holds, s.phases, Waiting);
    SumOfConstant(IsWorking, s.phases, Waiting);
    forall id ensures Begun(tasks, s.phases, id) == 0 {
      NoneBegun(tasks, s.phases, id);
    }
  }

  lemma {:induction false} NoneBegun(tasks: seq<string>, phases: seq<Phase>, id: string)
    requires |tasks| == |phases| && forall i | 0 <= i < |phases| :: !Began(phases[i])
    ensures Begun(tasks, phases, id) == 0
  {
    if tasks != [] {
      NoneBegun(tasks[1..], phases[1..], id);
    }
  }

  lemma StepKeepsInv(tasks: seq<string>, cap: nat, s: State, i: nat)
    requires Inv(tasks, cap, s) && Enabled(s, i)
    ensures Inv(tasks, cap, Step(tasks, s, i))
  {
    var t := Step(tasks, s, i);
    var p := t.phases[i];
    SumOfUpdate(Holds, s.phases, i, p);
    SumOfUpdate(IsWorking, s.phases, i, p);
    forall id ensures Count(t.invocations, id) == Begun(tasks, t.phases, id) {
      BegunOfUpdate(tasks, s.phases, i, p, id);
    }
    SumBound(IsWorking, Holds, t.phases);
    SumBound(IsWorking, One, t.phases);
    SumOfOnes(t.phases);
  }

  lemma {:induction false} SumOfOnes(phases: seq<Phase>)
    ensures Sum(One, phases) == |phases|
  {
    if phases != [] {
      SumOfOnes(phases[1..]);
    }
  }

  /** Main result, safety: whatever the order, the number of active tasks is the number of tasks at
      work and never exceeds the cap, and the invocations counted are those that happened. */
  lemma {:induction false} RunKeepsInv(tasks: seq<string>, cap: nat, s: State, order: seq<nat>, t: State)
    requires Inv(tasks, cap, s) && IsRun(tasks, s, order, t)
    ensures Inv(tasks, cap, t)
    decreases |order|
  {
    if order != [] {
      StepKeepsInv(tasks, cap, s, order[0]);
      RunKeepsInv(tasks, cap, Step(tasks, s, order[0]), order[1..], t);
    }
  }

  // ---- progress ---------------------------------------------------------------------------

  lemma StepTakesOne(tasks: seq<string>, s: State, i: nat)
    requires |s.phases| == |tasks| && Enabled(s, i)
    ensures Sum(StepsLeft, Step(tasks, s, i).phases) == Sum(StepsLeft, s.phases) - 1
    ensures Sum(WorkLeft, Step(tasks, s, i).phases)
         == Sum(WorkLeft, s.phases) - (if IsWorkStep(s, i) then 1 else 0)
  {
    SumOfUpdate(StepsLeft, s.phases, i, Step(tasks, s, i).phases[i]);
    SumOfUpdate(WorkLeft, s.phases, i, Step(tasks, s, i).phases[i]);
  }

  /** Does task `i` now start or finish its work? */
  predicate IsWorkStep(s: State, i: nat) {
    i < |s.phases| && (s.phases[i].Holding? || s.phases[i].Working?)
  }

  function WorkSteps(tasks: seq<string>, s: State, order: seq<nat>): nat
    decreases |order|
  {
    if order == [] || |s.phases| != |tasks| || !Enabled(s, order[0]) then 0 else
      (if IsWorkStep(s, order[0]) then 1 else 0) + WorkSteps(tasks, Step(tasks, s, order[0]), order[1..])
  }

  lemma {:induction false} RunTakes(tasks: seq<string>, s: State, order: seq<nat>, t: State)
    requires |s.phases| == |tasks| && IsRun(tasks, s, order, t)
    ensures |t.phases| == |tasks|
    ensures |order| == Sum(StepsLeft, s.phases) - Sum(StepsLeft, t.phases)
    ensures WorkSteps(tasks, s, order) == Sum(WorkLeft, s.phases) - Sum(WorkLeft, t.phases)
    decreases |order|
  {
    if order != [] {
      StepTakesOne(tasks, s, order[0]);
      RunTakes(tasks, Step(tasks, s, order[0]), order[1..], t);
    }
  }

  /** No state but the final one is stuck. */
  lemma NotStuck(tasks: seq<string>, cap: nat, s: State) returns (i: nat)
    requires Inv(tasks, cap, s) && cap >= 1 && !Finished(s)
    ensures Enabled(s, i)
  {
    i :| i < |s.phases| && !s.phases[i].Done?;
    if !Enabled(s, i) {
      var j := SomeHolder(s.phases);
      i := j;
    }
  }

  lemma {:induction false} SomeHolder(phases: seq<Phase>) returns (j: nat)
    requires Sum(Holds, phases) > 0
    ensures j < |phases| && Holds(phases[j]) == 1
  {
    if Holds(phases[0]) == 1 {
      j := 0;
    } else {
      var k := SomeHolder(phases[1..]);
      j := k + 1;
    }
  }

  lemma {:induction false} FinishedIffNothingLeft(phases: seq<Phase>)
    ensures Sum(StepsLeft, phases) == 0 <==> forall i | 0 <= i < |phases| :: phases[i].Done?
    ensures (forall i | 0 <= i < |phases| :: phases[i].Done?) ==> Sum(WorkLeft, phases) == 0
  {
    if phases != [] {
      FinishedIffNothingLeft(phases[1..]);
    }
  }

  lemma {:induction false} CanFinish(tasks: seq<string>, cap: nat, s: State) returns (order: seq<nat>, t: State)
    requires Inv(tasks, cap, s) && cap >= 1
    ensures IsRun(tasks, s, order, t) && Finished(t)
    decreases Sum(StepsLeft, s.phases)
  {
    if Finished(s) {
      order, t := [], s;
    } else {
      var i := NotStuck(tasks, cap, s);
      StepKeepsInv(tasks, cap, s, i);
      StepTakesOne(tasks, s, i);
      var rest;
      rest, t := CanFinish(tasks, cap, Step(tasks, s, i));
      order := [i] + rest;
      assert order[1..] == rest;
    }
  }

  /** Main result, liveness: a run that cannot go on is finished, it had exactly four steps a task,
      two of them the start and the finish of its work; and the pool can finish exactly if it has a
      permit or nothing to do. */
  lemma CompleteRuns(tasks: seq<string>, cap: nat, order: seq<nat>, t: State)
    requires IsRun(tasks, Start(|tasks|, cap), order, t)
    ensures cap >= 1 ==> (Finished(t) <==> forall i: nat :: !Enabled(t, i))
    ensures Finished(t) ==> |order| == 4 * |tasks|
    ensures Finished(t) ==> WorkSteps(tasks, Start(|tasks|, cap), order) == 2 * |tasks|
    ensures |order| <= 4 * |tasks|
  {
    var s := Start(|tasks|, cap);
    StartInv(tasks, cap);
    RunKeepsInv(tasks, cap, s, order, t);
    RunTakes(tasks, s, order, t);
    SumOfConstant(StepsLeft, s.phases, Waiting);
    SumOfConstant(WorkLeft, s.phases, Waiting);
    FinishedIffNothingLeft(t.phases);
    StuckIsFinished(tasks, cap, t);
  }

  lemma StuckIsFinished(tasks: seq<string>, cap: nat, t: State)
    requires Inv(tasks, cap, t)
    ensures cap >= 1 ==> (Finished(t) <==> forall i: nat :: !Enabled(t, i))
  {
    if cap >= 1 && !Finished(t) {
      var i := NotStuck(tasks, cap, t);
    }
  }

  ghost predicate SomeRunFinishes(tasks: seq<string>, s: State) {
    exists order, t :: IsRun(tasks, s, order, t) && Finished(t)
  }

  lemma FinishesIff(tasks: seq<string>, cap: nat)
    ensures SomeRunFinishes(tasks, Start(|tasks|, cap)) <==> cap >= 1 || tasks == []
  {
    var s := Start(|tasks|, cap);
    StartInv(tasks, cap);
    if cap >= 1 {
      var order, t := CanFinish(tasks, cap, s);
      assert IsRun(tasks, s, order, t) && Finished(t);
    } else if tasks == [] {
      assert IsRun(tasks, s, [], s) && Finished(s);
    } else {
      assert s.phases[0].Waiting? && forall i: nat :: !Enabled(s, i);
    }
  }

  // ---- the cap can be reached -------------------------------------------------------------

  lemma {:induction false} RunAppend(tasks: seq<string>, s: State, a: seq<nat>, t: State, b: seq<nat>, u: State)
    requires IsRun(tasks, s, a, t) && IsRun(tasks, t, b, u)
    ensures IsRun(tasks, s, a + b, u)
    decreases |a|
  {
    if a == [] {
      assert a + b == b;
    } else {
      assert (a + b)[1..] == a[1..] + b;
      RunAppend(tasks, Step(tasks, s, a[0]), a[1..], t, b, u);
    }
  }

  lemma {:induction false} PeakGrows(tasks: seq<string>, s: State, order: seq<nat>, t: State)
    requires IsRun(tasks, s, order, t)
    ensures s.peak <= t.peak
    decreases |order|
  {
    if order != [] {
      PeakGrows(tasks, Step(tasks, s, order[0]), order[1..], t);
    }
  }

  /** The first `k` tasks take their permits and begin. */
  lemma {:induction false} CanOverlap(tasks: seq<string>, cap: nat, k: nat) returns (order: seq<nat>, t: State)
    requires k <= cap && k <= |tasks|
    ensures IsRun(tasks, Start(|tasks|, cap), order, t)
    ensures |t.phases| == |tasks| && t.active == k && t.permits == cap - k && t.peak >= k
    ensures forall i | k <= i < |tasks| :: t.phases[i].Waiting?
  {
    var s := Start(|tasks|, cap);
    if k == 0 {
      order, t := [], s;
    } else {
      var before, u := CanOverlap(tasks, cap, k - 1);
      var held := Step(tasks, u, k - 1);
      t := Step(tasks, held, k - 1);
      assert [k - 1, k - 1][1..] == [k - 1] && [k - 1][1..] == [];
      assert IsRun(tasks, held, [k - 1], t);
      assert IsRun(tasks, u, [k - 1, k - 1], t);
      RunAppend(tasks, s, before, u, [k - 1, k - 1], t);
      order := before + [k - 1, k - 1];
    }
  }

  /** Main result: the recorded overlap never exceeds the smaller of the cap and the number of
      tasks, and some complete run reaches it. */
  lemma OverlapIsTight(tasks: seq<string>, cap: nat)
    requires cap >= 1
    ensures forall order, t | IsRun(tasks, Start(|tasks|, cap), order, t) ::
              t.peak <= if cap < |tasks| then cap else |tasks|
    ensures exists order, t :: IsRun(tasks, Start(|tasks|, cap), order, t) && Finished(t) &&
              t.peak == if cap < |tasks| then cap else |tasks|
  {
    var s := Start(|tasks|, cap);
    var k := if cap < |tasks| then cap else |tasks|;
    StartInv(tasks, cap);
    forall order, t | IsRun(tasks, s, order, t) ensures t.peak <= k {
      RunKeepsInv(tasks, cap, s, order, t);
    }
    var a, u := CanOverlap(tasks, cap, k);
    RunKeepsInv(tasks, cap, s, a, u);
    var b, t := CanFinish(tasks, cap, u);
    RunAppend(tasks, s, a, u, b, t);
    PeakGrows(tasks, u, b, t);
    RunKeepsInv(tasks, cap, s, a + b, t);
    assert IsRun(tasks, s, a + b, t) && Finished(t) && t.peak == k;
  }

  /** What is left of a run after its first steps is a run. */
  lemma {:induction false} RunRest(tasks: seq<string>, s: State, order: seq<nat>, t: State, j: nat, u: State)
    requires j <= |order| && IsRun(tasks, s, order, t) && IsRun(tasks, s, order[..j], u)
    ensures IsRun(tasks, u, order[j..], t)
    decreases j
  {
    if j == 0 {
      assert order[..0] == [] && order[0..] == order;
    } else {
      assert order[..j][1..] == order[1..][..j - 1] && order[1..][j - 1..] == order[j..];
      RunRest(tasks, Step(tasks, s, order[0]), order[1..], t, j - 1, u);
    }
  }

  /** The peak is the one at the start, or the number of active tasks after some of the steps. */
  lemma {:induction false} PeakIsReached(tasks: seq<string>, s: State, order: seq<nat>, t: State)
      returns (j: nat, u: State)
    requires IsRun(tasks, s, order, t)
    ensures j <= |order| && IsRun(tasks, s, order[..j], u) && (t.peak == s.peak || u.active == t.peak)
    decreases |order|
  {
    if order == [] {
      j, u := 0, s;
      assert order[..0] == [];
    } else {
      var next := Step(tasks, s, order[0]);
      var i, v := PeakIsReached(tasks, next, order[1..], t);
      if v.active == t.peak {
        j, u := i + 1, v;
      } else {
        j, u := 1, next;
      }
      assert order[..j][1..] == order[1..][..j - 1];
    }
  }

  /** `u` is the state after the first `j` steps of the schedule. */
  predicate IsReached(tasks: seq<string>, cap: nat, order: seq<nat>, j: nat, u: State) {
    j <= |order| && IsRun(tasks, Start(|tasks|, cap), order[..j], u)
  }

  lemma PeakIsBound(tasks: seq<string>, cap: nat, order: seq<nat>, t: State, j: nat, u: State)
    requires IsRun(tasks, Start(|tasks|, cap), order, t) && IsReached(tasks, cap, order, j, u)
    ensures Sum(IsWorking, u.phases) <= t.peak
  {
    var s := Start(|tasks|, cap);
    StartInv(tasks, cap);
    RunKeepsInv(tasks, cap, s, order[..j], u);
    RunRest(tasks, s, order, t, j, u);
    PeakGrows(tasks, u, order[j..], t);
  }

  lemma PeakIsAttained(tasks: seq<string>, cap: nat, order: seq<nat>, t: State) returns (j: nat, u: State)
    requires IsRun(tasks, Start(|tasks|, cap), order, t)
    ensures IsReached(tasks, cap, order, j, u) && Sum(IsWorking, u.phases) == t.peak
  {
    var s := Start(|tasks|, cap);
    StartInv(tasks, cap);
    j, u := PeakIsReached(tasks, s, order, t);
    if u.active != t.peak {
      j, u := 0, s;
      assert order[..0] == [];
    }
    RunKeepsInv(tasks, cap, s, order[..j], u);
  }

  /** Main result: after any run the recorded overlap is the greatest number of tasks that were at work at
      once. */
  lemma PeakIsHighest(tasks: seq<string>, cap: nat, order: seq<nat>, t: State)
    requires IsRun(tasks, Start(|tasks|, cap), order, t)
    ensures forall j, u | IsReached(tasks, cap, order, j, u) :: Sum(IsWorking, u.phases) <= t.peak
    ensures exists j, u :: IsReached(tasks, cap, order, j, u) && Sum(IsWorking, u.phases) == t.peak
  {
    forall j, u | IsReached(tasks, cap, order, j, u) ensures Sum(IsWorking, u.phases) <= t.peak {
      PeakIsBound(tasks, cap, order, t, j, u);
    }
    var j, u := PeakIsAttained(tasks, cap, order, t);
  }
}
