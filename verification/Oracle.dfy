/**
  The correctness oracle of the benchmark, `_oracle`, and what it reports of the pool and of the
  serial loop (bench/prism_benchmark_852.py).
 */
module Oracle {
  import opened Pool
  import opened Wrappers

  const ACCEPTED: string := "accepted"

  /** The fields of the report that depend on the tasks; the sorted lists are sets here. */
  datatype Report = Report(
    correct: bool,
    expectedTasks: nat,
    verifiedTasks: int,
    lost: set<string>,
    unexpected: set<string>,
    duplicates: set<string>,
    rejected: set<string>,
    overlap: int)

  function Judge(expected: seq<string>, states: map<string, string>, invocations: map<string, nat>, overlap: int): Report {
    var expectedSet := set id | id in expected;
    var observed := states.Keys;
    var lost := expectedSet - observed;
    var unexpected := observed - expectedSet;
    var duplicates := set id | id in invocations && invocations[id] != 1;
    var rejected := set id | id in states && states[id] != ACCEPTED;
    Report(lost == {} && unexpected == {} && duplicates == {} && rejected == {},
           |expected|, |states| - |rejected|, lost, unexpected, duplicates, rejected, overlap)
  }

  /** Every expected task has exactly one accepted result and was invoked exactly once. */
  predicate AllDoneOnce(expected: seq<string>, states: map<string, string>, invocations: map<string, nat>) {
    && (forall id | id in expected :: id in states && states[id] == ACCEPTED)
    && (forall id | id in states :: id in expected)
    && (forall id | id in expected :: Count(invocations, id) == 1)
    && (forall id | id in invocations :: id in expected)
  }

  /** Main result on the oracle: it says "correct" of every outcome in which everything was done
      once, and of no other one, except that it cannot see a task that is missing from the
      counter or an invocation of a task that was not expected. */
  lemma JudgeIsRight(expected: seq<string>, states: map<string, string>, invocations: map<string, nat>, overlap: int)
    ensures AllDoneOnce(expected, states, invocations) <==>
      && Judge(expected, states, invocations, overlap).correct
      && invocations.Keys == set id | id in expected
  {
    var r := Judge(expected, states, invocations, overlap);
    var expectedSet := set id | id in expected;
    if AllDoneOnce(expected, states, invocations) {
      forall id ensures id !in r.lost && id !in r.unexpected && id !in r.duplicates && id !in r.rejected {
      }
      forall id ensures id in invocations <==> id in expectedSet {
        assert id in expected ==> Count(invocations, id) == 1;
      }
    }
    if r.correct && invocations.Keys == expectedSet {
      forall id | id in expected
        ensures id in states && states[id] == ACCEPTED && Count(invocations, id) == 1
      {
        assert id in expectedSet && id !in r.lost && id in invocations.Keys && id !in r.duplicates;
        assert id !in r.rejected;
      }
      forall id | id in states ensures id in expected {
        assert id !in r.unexpected;
      }
      forall id | id in invocations ensures id in expected {
        assert id in invocations.Keys;
      }
    }
  }

  /** What the report lists: the tasks without a result, the results of other tasks, the tasks not invoked
      exactly once, the results that are not "accepted", and how many are. */
  lemma JudgeReports(expected: seq<string>, states: map<string, string>, invocations: map<string, nat>, overlap: int)
    ensures var r := Judge(expected, states, invocations, overlap);
            && (forall id :: id in r.lost <==> id in expected && id !in states)
            && (forall id :: id in r.unexpected <==> id in states && id !in expected)
            && (forall id :: id in r.duplicates <==> id in invocations && invocations[id] != 1)
            && (forall id :: id in r.rejected <==> id in states && states[id] != "accepted")
            && r.expectedTasks == |expected| && r.overlap == overlap
            && r.verifiedTasks == |set id | id in states && states[id] == "accepted"|
            && (r.correct <==> r.lost + r.unexpected + r.duplicates + r.rejected == {})
  {
    var r := Judge(expected, states, invocations, overlap);
    var accepted := set id | id in states && states[id] == "accepted";
    assert states.Keys == accepted + r.rejected && accepted !! r.rejected;
    assert |states.Keys| == |accepted| + |r.rejected|;
  }

  /** The name `duplicate_or_missing_invocations` promises more: no invocation at all is "correct". */
  lemma MissingInvocationWitness(id: string)
    ensures Judge([id], map[id := ACCEPTED], map[], 0).correct
    ensures !AllDoneOnce([id], map[id := ACCEPTED], map[])
  {
    var states := map[id := ACCEPTED];
    assert states.Keys == {id};
    assert Count(map[], id) == 0 && id in [id];
  }

  // ---- the pool ---------------------------------------------------------------------------

  /** `dict(pairs)`: every task returns "accepted". */
  function States(tasks: seq<string>): (m: map<string, string>)
    ensures forall id :: id in m <==> id in tasks
    ensures forall id | id in m :: m[id] == ACCEPTED
  {
    map id | id in tasks :: ACCEPTED
  }

  function Occurrences(tasks: seq<string>, id: string): nat {
    if tasks == [] then 0 else (if tasks[0] == id then 1 else 0) + Occurrences(tasks[1..], id)
  }

  lemma {:induction false} AllBegun(tasks: seq<string>, phases: seq<Phase>, id: string)
    requires |tasks| == |phases| && forall i | 0 <= i < |phases| :: phases[i].Done?
    ensures Begun(tasks, phases, id) == Occurrences(tasks, id)
  {
    if tasks != [] {
      AllBegun(tasks[1..], phases[1..], id);
    }
  }

  lemma {:induction false} OccursIffIn(tasks: seq<string>, id: string)
    ensures Occurrences(tasks, id) > 0 <==> id in tasks
  {
    if tasks != [] {
      OccursIffIn(tasks[1..], id);
      assert tasks == [tasks[0]] + tasks[1..];
    }
  }

  lemma {:induction false} DistinctIffOnce(tasks: seq<string>)
    ensures Distinct(tasks) <==> forall id | id in tasks :: Occurrences(tasks, id) == 1
  {
    if tasks != [] {
      var rest := tasks[1..];
      DistinctIffOnce(rest);
      assert tasks == [tasks[0]] + rest;
      OccursIffIn(rest, tasks[0]);
      if Distinct(tasks) {
        assert forall i | 0 <= i < |rest| :: rest[i] == tasks[i + 1];
        assert tasks[0] !in rest;
        assert Distinct(rest);
        forall id | id in tasks ensures Occurrences(tasks, id) == 1 {
          OccursIffIn(rest, id);
        }
      }
      if forall id | id in tasks :: Occurrences(tasks, id) == 1 {
        assert tasks[0] in tasks && tasks[0] !in rest;
        forall id | id in rest ensures Occurrences(rest, id) == 1 {
          assert id in tasks && id != tasks[0];
        }
        forall i, j | 0 <= i < j < |tasks| ensures tasks[i] != tasks[j] {
          assert tasks[j] == rest[j - 1];
          assert i > 0 ==> tasks[i] == rest[i - 1];
        }
      }
    }
  }

  /** Main result on the pool: in whatever order the tasks ran, when all are done the oracle
      reports "correct" exactly if the task names are distinct, with every task verified and an
      overlap between one and the smaller of the cap and the number of tasks. */
  lemma PoolIsJudgedCorrect(tasks: seq<string>, cap: nat, order: seq<nat>, t: State)
    requires IsRun(tasks, Start(|tasks|, cap), order, t) && Finished(t)
    ensures var r := Judge(tasks, States(tasks), t.invocations, t.peak);
            && (r.correct <==> Distinct(tasks))
            && (Distinct(tasks) ==> AllDoneOnce(tasks, States(tasks), t.invocations))
            && r.overlap <= cap && r.overlap <= |tasks| && (tasks != [] ==> r.overlap >= 1)
            && r.rejected == {} && r.verifiedTasks == |set id | id in tasks|
  {
    StartInv(tasks, cap);
    RunKeepsInv(tasks, cap, Start(|tasks|, cap), order, t);
    assert tasks != [] ==> Began(t.phases[0]);
    CountsAreOccurrences(tasks, cap, t);
    DistinctIffOnce(tasks);
    var r := Judge(tasks, States(tasks), t.invocations, t.peak);
    assert States(tasks).Keys == set id | id in tasks;
    assert r.rejected == {};
    if Distinct(tasks) {
      assert r.duplicates == {};
    } else {
      var id :| id in tasks && Occurrences(tasks, id) != 1;
      assert id in r.duplicates;
    }
  }

  lemma CountsAreOccurrences(tasks: seq<string>, cap: nat, t: State)
    requires Inv(tasks, cap, t) && Finished(t)
    ensures forall id :: id in t.invocations <==> id in tasks
    ensures forall id | id in t.invocations :: t.invocations[id] == Occurrences(tasks, id)
  {
    forall id
      ensures id in t.invocations <==> id in tasks
      ensures id in t.invocations ==> t.invocations[id] == Occurrences(tasks, id)
    {
      AllBegun(tasks, t.phases, id);
      OccursIffIn(tasks, id);
      assert Count(t.invocations, id) == Occurrences(tasks, id);
    }
  }

  // ---- the serial loop --------------------------------------------------------------------

  lemma {:induction false} OccurrencesOfNext(tasks: seq<string>, i: nat, id: string)
    requires i < |tasks|
    ensures Occurrences(tasks[..i + 1], id) == Occurrences(tasks[..i], id) + (if tasks[i] == id then 1 else 0)
  {
    if i > 0 {
      assert tasks[..i + 1][1..] == tasks[1..][..i];
      assert tasks[..i][1..] == tasks[1..][..i - 1];
      OccurrencesOfNext(tasks[1..], i - 1, id);
    } else {
      assert tasks[..1][1..] == [] && tasks[..0] == [];
    }
  }

  /** `_serial`: the tasks one after the other. */
  method Serial(tasks: seq<string>) returns (r: Report)
    ensures r.correct <==> Distinct(tasks)
    ensures r.overlap == if tasks == [] then 0 else 1
    ensures r.lost == {} && r.unexpected == {} && r.rejected == {}
    ensures r.duplicates == set id | id in tasks && Occurrences(tasks, id) != 1
  {
    var invocations: map<string, nat> := map[];
    var states: map<string, string> := map[];
    var active, peak := 0, 0;
    for i := 0 to |tasks|
      invariant active == 0 && peak == if i == 0 then 0 else 1
      invariant forall id :: Count(invocations, id) == Occurrences(tasks[..i], id)
      invariant forall id | id in invocations :: invocations[id] > 0
      invariant forall id :: id in states <==> id in tasks[..i]
      invariant forall id | id in states :: states[id] == ACCEPTED
    {
      var id := tasks[i];
      ghost var before := invocations;
      assert tasks[..i + 1] == tasks[..i] + [id];
      invocations := invocations[id := Count(invocations, id) + 1];
      forall x ensures Count(invocations, x) == Occurrences(tasks[..i + 1], x) {
        OccurrencesOfNext(tasks, i, x);
        assert Count(before, x) == Occurrences(tasks[..i], x);
      }
      active := active + 1;
      peak := if active > peak then active else peak;
      active := active - 1;
      states := states[id := ACCEPTED];
    }
    assert tasks[..|tasks|] == tasks;
    r := Judge(tasks, states, invocations, peak);
    DistinctIffOnce(tasks);
    forall id ensures id in invocations <==> id in tasks {
      OccursIffIn(tasks, id);
    }
    assert r.lost == {} && r.unexpected == {} && r.rejected == {};
    assert r.duplicates == set id | id in tasks && Occurrences(tasks, id) != 1;
    if !Distinct(tasks) {
      var id :| id in tasks && Occurrences(tasks, id) != 1;
      assert id in r.duplicates;
    }
  }
}
