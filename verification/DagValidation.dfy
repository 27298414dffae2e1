// dag_validate, and what an accepted DAG still needs to run to the end.

module DagValidation {
  import opened Bytes
  import opened Common
  import opened Dags
  import opened DagExecutor

  ghost predicate Accepted(d: Dag) {
    0 < |d.steps| <= MAX_DAG_STEPS && AllResolve(d.steps)
  }

  /** Checks the number of steps and that every dependency exists; cycles and duplicate ids pass. */
  method Validate(d: Dag) returns (ok: bool)
    ensures ok <==> Accepted(d)
  {
    if |d.steps| == 0 || |d.steps| > MAX_DAG_STEPS {
      return false;
    }
    for i := 0 to |d.steps|
      invariant forall k, id | 0 <= k < i && id in d.steps[k].dependencies :: Resolve(d.steps, id) < |d.steps|
    {
      var step := d.steps[i];
      for j := 0 to |step.dependencies|
        invariant forall l | 0 <= l < j :: Resolve(d.steps, step.dependencies[l]) < |d.steps|
      {
        var found := false;
        var k := 0;
        while k < |d.steps|
          invariant k <= |d.steps| && !found
          invariant forall l | 0 <= l < k :: d.steps[l].id != step.dependencies[j]
        {
          if d.steps[k].id == step.dependencies[j] {
            found := true;
            break;
          }
          k := k + 1;
        }
        assert k == Resolve(d.steps, step.dependencies[j]);
        if !found {
          assert step.dependencies[j] in d.steps[i].dependencies;
          return false;
        }
      }
    }
    ok := true;
  }

  /** What an accepted DAG still needs in order to run to the end is exactly the absence of cycles. */
  lemma AcceptedCompletesIffAcyclic(d: Dag)
    requires Accepted(d)
    ensures Completable(d.steps) == All(d.steps) <==> Acyclic(d.steps)
    ensures Completable(d.steps) != All(d.steps) <==>
            exists cycle: seq<nat> :: Cycle(d.steps, cycle)
                      && forall k | 0 <= k < |cycle| :: cycle[k] !in Completable(d.steps)
  {
    CompletableIffAcyclic(d.steps);
    CompletableIsLeastFixpoint(d.steps);
    if Completable(d.steps) != All(d.steps) {
      var i :| i in All(d.steps) && i !in Completable(d.steps);
      var cycle := StuckContainsCycle(d.steps, i);
    }
  }

  function Waiting(id: Word32, dependency: Word32): Step {
    Step(id, [], [], [dependency], 0, 0, 0, None)
  }

  /** Two steps that wait for each other are accepted, and neither of them ever runs. */
  lemma AcceptsADeadlock(id: Word32, first: Word32, second: Word32, now: nat)
    requires first != second
    ensures var d := Dag(id, [], 1, [Waiting(first, second), Waiting(second, first)], now, now);
            Accepted(d) && Completable(d.steps) == {}
  {
    var steps := [Waiting(first, second), Waiting(second, first)];
    assert Resolve(steps, first) == 0;
    assert Resolve(steps, second) == 1 by {
      assert steps[1..][0].id == second;
    }
    var cycle: seq<nat> := [0, 1, 0];
    assert second in steps[0].dependencies && first in steps[1].dependencies;
    assert Edge(steps, 0, 1) && Edge(steps, 1, 0);
    assert forall k | 0 <= k < 2 :: Edge(steps, cycle[k], cycle[k + 1]);
    CycleNeverReady(steps, cycle, 2);
    assert cycle[0] !in Completable(steps) && cycle[1] !in Completable(steps);
    CompletableIsLeastFixpoint(steps);
    forall i: nat
      ensures i !in Completable(steps)
    {
      assert i in All(steps) ==> i == cycle[0] || i == cycle[1];
    }
  }

  /** No step ever waits for one whose id an earlier step already carries. */
  lemma ShadowedStepIsNeverAwaited(steps: seq<Step>, i: nat, j: nat)
    requires i < j < |steps| && steps[i].id == steps[j].id
    ensures forall k: nat :: !Edge(steps, k, j)
  {
  }
}
