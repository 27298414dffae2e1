// dag_execute: repeated passes over the steps until all are done, one fails, or a
// whole pass completes nothing.

module DagExecutor {
  import opened Common
  import opened Dags

  // ---------------------------------------------------------------------------
  // What can be completed at all
  // ---------------------------------------------------------------------------

  /** All dependencies of step i resolve to steps in the set. */
  ghost predicate Satisfied(steps: seq<Step>, done: set<nat>, i: nat)
    requires i < |steps|
  {
    forall d | d in steps[i].dependencies :: Resolve(steps, d) < |steps| && Resolve(steps, d) in done
  }

  ghost function Ready(steps: seq<Step>, done: set<nat>): set<nat> {
    set i | 0 <= i < |steps| && Satisfied(steps, done, i)
  }

  /** The steps whose dependencies can be completed in at most n rounds. */
  ghost function Rounds(steps: seq<Step>, n: nat): set<nat> {
    if n == 0 then {} else Ready(steps, Rounds(steps, n - 1))
  }

  /** The least set closed under "all resolved dependencies are in it". */
  ghost function Completable(steps: seq<Step>): set<nat> {
    Rounds(steps, |steps|)
  }

  ghost function UpTo(n: nat): (s: set<nat>)
    ensures forall i: nat :: i in s <==> i < n
    ensures |s| == n
  {
    if n == 0 then {} else UpTo(n - 1) + {n - 1}
  }

  ghost function All(steps: seq<Step>): set<nat> {
    UpTo(|steps|)
  }

  lemma ReadyMonotone(steps: seq<Step>, s: set<nat>, t: set<nat>)
    requires s <= t
    ensures Ready(steps, s) <= Ready(steps, t)
  {
  }

  lemma {:induction false} RoundsAscend(steps: seq<Step>, n: nat)
    ensures Rounds(steps, n) <= Rounds(steps, n + 1)
  {
    if n > 0 {
      RoundsAscend(steps, n - 1);
      ReadyMonotone(steps, Rounds(steps, n - 1), Rounds(steps, n));
    }
  }

  /** The rounds are below every closed set, so in particular below the fixpoint they reach. */
  lemma {:induction false} RoundsBelowClosed(steps: seq<Step>, n: nat, closed: set<nat>)
    requires Ready(steps, closed) <= closed
    ensures Rounds(steps, n) <= closed
  {
    hide Ready;
    if n > 0 {
      RoundsBelowClosed(steps, n - 1, closed);
      ReadyMonotone(steps, Rounds(steps, n - 1), closed);
    }
  }

  /** Either round n is already a fixpoint or it holds at least n steps. */
  lemma {:induction false} RoundsGrow(steps: seq<Step>, n: nat)
    ensures Rounds(steps, n + 1) == Rounds(steps, n) || |Rounds(steps, n + 1)| >= n + 1
  {
    RoundsAscend(steps, n);
    if n == 0 {
      SubsetSize(Rounds(steps, 0), Rounds(steps, 1));
    } else {
      RoundsGrow(steps, n - 1);
      SubsetSize(Rounds(steps, n), Rounds(steps, n + 1));
    }
  }

  lemma SubsetSize<T>(s: set<T>, t: set<T>)
    requires s <= t
    ensures |s| <= |t| && (|s| == |t| ==> s == t)
  {
    assert t == s + (t - s);
  }

  /** Completable is the least fixpoint of Ready. */
  lemma CompletableIsLeastFixpoint(steps: seq<Step>)
    ensures Ready(steps, Completable(steps)) == Completable(steps)
    ensures forall closed | Ready(steps, closed) <= closed :: Completable(steps) <= closed
    ensures Completable(steps) <= All(steps)
  {
    var n := |steps|;
    RoundsGrow(steps, n);
    assert Rounds(steps, n + 1) <= All(steps);
    SubsetSize(Rounds(steps, n + 1), All(steps));
    forall closed | Ready(steps, closed) <= closed
      ensures Completable(steps) <= closed
    {
      RoundsBelowClosed(steps, n, closed);
    }
    RoundsBelowClosed(steps, n, All(steps));
  }

  // ---------------------------------------------------------------------------
  // Completable means: resolvable and free of cycles
  // ---------------------------------------------------------------------------

  /** No step of a cycle is completed in any round. */
  lemma {:induction false} CycleNeverReady(steps: seq<Step>, walk: seq<nat>, n: nat)
    requires Cycle(steps, walk)
    ensures forall k | 0 <= k < |walk| :: walk[k] !in Rounds(steps, n)
  {
    if n > 0 {
      CycleNeverReady(steps, walk, n - 1);
      forall k | 0 <= k < |walk|
        ensures walk[k] !in Rounds(steps, n)
      {
        var at := if k == |walk| - 1 then 0 else k;
        assert walk[at] == walk[k] && Edge(steps, walk[at], walk[at + 1]);
        assert walk[at + 1] !in Rounds(steps, n - 1);
      }
    }
  }

  /** When every dependency resolves, a step that cannot be completed waits for another one. */
  lemma StuckWaits(steps: seq<Step>, i: nat) returns (j: nat)
    requires AllResolve(steps) && i < |steps| && i !in Completable(steps)
    ensures Edge(steps, i, j) && j !in Completable(steps)
  {
    CompletableIsLeastFixpoint(steps);
    assert !Satisfied(steps, Completable(steps), i);
    var d :| d in steps[i].dependencies && !(Resolve(steps, d) < |steps| && Resolve(steps, d) in Completable(steps));
    j := Resolve(steps, d);
  }

  /** A walk of n edges through steps that cannot be completed. */
  lemma {:induction false} StuckWalk(steps: seq<Step>, i: nat, n: nat) returns (walk: seq<nat>)
    requires AllResolve(steps) && i < |steps| && i !in Completable(steps)
    ensures |walk| == n + 1 && walk[0] == i
    ensures forall k | 0 <= k < n :: Edge(steps, walk[k], walk[k + 1])
    ensures forall k | 0 <= k <= n :: walk[k] < |steps| && walk[k] !in Completable(steps)
    decreases n
  {
    if n == 0 {
      walk := [i];
    } else {
      var j := StuckWaits(steps, i);
      var rest := StuckWalk(steps, j, n - 1);
      walk := [i] + rest;
    }
  }

  ghost function Entries(order: seq<nat>): set<nat> {
    set k | 0 <= k < |order| :: order[k]
  }

  lemma EntriesAppend(order: seq<nat>, i: nat)
    ensures Entries(order + [i]) == Entries(order) + {i}
  {
    var longer := order + [i];
    assert longer[|order|] == i;
    assert forall k | 0 <= k < |order| :: longer[k] == order[k];
  }

  /** Among more than n values below n two are equal. */
  lemma {:induction false} Pigeonhole(walk: seq<nat>, n: nat) returns (a: nat, b: nat)
    requires |walk| > n && forall k | 0 <= k < |walk| :: walk[k] < n
    ensures a < b < |walk| && walk[a] == walk[b]
  {
    if forall i, j | 0 <= i < j < |walk| :: walk[i] != walk[j] {
      DistinctSize(walk);
      SubsetSize(Entries(walk), UpTo(n));
      assert false;
    } else {
      a, b :| 0 <= a < b < |walk| && walk[a] == walk[b];
    }
  }

  lemma {:induction false} DistinctSize(walk: seq<nat>)
    requires forall i, j | 0 <= i < j < |walk| :: walk[i] != walk[j]
    ensures |Entries(walk)| == |walk|
  {
    if |walk| > 0 {
      var front := walk[..|walk| - 1];
      DistinctSize(front);
      EntriesAppend(front, walk[|walk| - 1]);
      assert walk == front + [walk[|walk| - 1]];
    }
  }

  /** Steps that cannot be completed although every dependency resolves contain a cycle. */
  lemma StuckContainsCycle(steps: seq<Step>, i: nat) returns (cycle: seq<nat>)
    requires AllResolve(steps) && i < |steps| && i !in Completable(steps)
    ensures Cycle(steps, cycle)
    ensures forall k | 0 <= k < |cycle| :: cycle[k] < |steps| && cycle[k] !in Completable(steps)
  {
    var walk := StuckWalk(steps, i, |steps|);
    var a, b := Pigeonhole(walk, |steps|);
    cycle := walk[a..b + 1];
  }

  /** Every step can be completed exactly when all dependencies resolve and no cycle exists. */
  lemma CompletableIffAcyclic(steps: seq<Step>)
    ensures Completable(steps) == All(steps) <==> AllResolve(steps) && Acyclic(steps)
  {
    CompletableIsLeastFixpoint(steps);
    if Completable(steps) == All(steps) {
      forall walk: seq<nat>
        ensures !Cycle(steps, walk)
      {
        if Cycle(steps, walk) {
          assert Edge(steps, walk[0], walk[1]);
          CycleNeverReady(steps, walk, |steps|);
        }
      }
      forall i, d | 0 <= i < |steps| && d in steps[i].dependencies
        ensures Resolve(steps, d) < |steps|
      {
        assert i in Ready(steps, Completable(steps));
      }
    }
    if AllResolve(steps) && Acyclic(steps) && Completable(steps) != All(steps) {
      var i :| i in All(steps) && i !in Completable(steps);
      var cycle := StuckContainsCycle(steps, i);
    }
  }

  // ---------------------------------------------------------------------------
  // The executor
  // ---------------------------------------------------------------------------

  datatype ExecStatus = Pending | Running | Completed | Failed

  ghost function DoneSet(done: seq<bool>, n: nat): set<nat>
    requires n <= |done|
  {
    set i | 0 <= i < n && done[i]
  }

  /** Each entry of the order is new and comes after all its dependencies. */
  ghost predicate Topological(steps: seq<Step>, order: seq<nat>) {
    && (forall k | 0 <= k < |order| :: order[k] < |steps|)
    && (forall k, l | 0 <= k < l < |order| :: order[k] != order[l])
    && (forall k | 0 <= k < |order| :: Satisfied(steps, Entries(order[..k]), order[k]))
  }

  lemma TopologicalAppend(steps: seq<Step>, order: seq<nat>, i: nat)
    requires Topological(steps, order) && i < |steps| && i !in Entries(order)
    requires Satisfied(steps, Entries(order), i)
    ensures Topological(steps, order + [i])
    ensures Entries(order + [i]) == Entries(order) + {i}
  {
    EntriesAppend(order, i);
    var longer := order + [i];
    forall k | 0 <= k < |longer|
      ensures Satisfied(steps, Entries(longer[..k]), longer[k])
    {
      assert longer[..k] == order[..k];
      assert order[..|order|] == order;
    }
    assert forall k | 0 <= k < |order| :: order[k] in Entries(order);
  }

  lemma DoneOneMore(done: seq<bool>, n: nat, i: nat)
    requires i < n <= |done|
    ensures DoneSet(done[i := true], n) == DoneSet(done, n) + {i}
  {
  }

  class ExecutionContext {
    const dag: Dag
    const stepCompleted: array<bool>
    var status: ExecStatus
    ghost var order: seq<nat>

    ghost predicate Valid() {
      |dag.steps| <= stepCompleted.Length
    }

    ghost function Done(): set<nat>
      requires Valid()
      reads stepCompleted
    {
      DoneSet(stepCompleted[..], |dag.steps|)
    }

    constructor (dag: Dag)
      requires |dag.steps| <= MAX_DAG_STEPS
      ensures Valid() && fresh(stepCompleted) && this.dag == dag
    {
      this.dag := dag;
      stepCompleted := new bool[MAX_DAG_STEPS](_ => false);
      status := Pending;
      order := [];
    }

    method StepDependenciesMet(i: nat) returns (met: bool)
      requires Valid() && i < |dag.steps|
      ensures met <==> Satisfied(dag.steps, Done(), i)
    {
      var step := dag.steps[i];
      for a := 0 to |step.dependencies|
        invariant forall k | 0 <= k < a ::
                    Resolve(dag.steps, step.dependencies[k]) < |dag.steps|
                              && Resolve(dag.steps, step.dependencies[k]) in Done()
      {
        var id := step.dependencies[a];
        var depCompleted := false;
        var j := 0;
        while j < |dag.steps|
          invariant j <= |dag.steps| && !depCompleted
          invariant forall k | 0 <= k < j :: dag.steps[k].id != id
        {
          if dag.steps[j].id == id {
            if stepCompleted[j] {
              depCompleted := true;
            }
            break;
          }
          j := j + 1;
        }
        assert Resolve(dag.steps, id) == j;
        if !depCompleted {
          assert id in step.dependencies;
          return false;
        }
      }
      return true;
    }

    /** What a completed or abandoned execution leaves behind. */
    ghost predicate Consistent(succeeds: nat -> bool)
      reads this`order, stepCompleted
    {
      && Valid()
      && Topological(dag.steps, order)
      && Entries(order) == Done()
      && Done() <= Completable(dag.steps)
      && forall k | 0 <= k < |order| :: succeeds(order[k])
    }

    /** Marks a step done after its body has succeeded. */
    method Complete(i: nat, ghost succeeds: nat -> bool)
      requires Consistent(succeeds) && i < |dag.steps| && !stepCompleted[i] && succeeds(i)
      requires Satisfied(dag.steps, Done(), i)
      modifies this`order, stepCompleted
      ensures Consistent(succeeds) && order == old(order) + [i] && Done() == old(Done()) + {i}
      ensures stepCompleted[i]
    {
      assert i in Completable(dag.steps) by {
        CompletableIsLeastFixpoint(dag.steps);
        ReadyMonotone(dag.steps, Done(), Completable(dag.steps));
      }
      TopologicalAppend(dag.steps, order, i);
      DoneOneMore(stepCompleted[..], |dag.steps|, i);
      stepCompleted[i] := true;
      order := order + [i];
      assert stepCompleted[..] == old(stepCompleted[..])[i := true];
    }

    /** One pass over the steps. Stops at the first step whose body fails. */
    method Pass(succeeds: nat -> bool) returns (failed: bool, completedNow: nat)
      requires Consistent(succeeds)
      modifies this`order, stepCompleted
      ensures Consistent(succeeds) && |order| == |old(order)| + completedNow
      ensures failed ==>
                (exists i ::
                   0 <= i < |dag.steps| && i !in Done() && Satisfied(dag.steps, Done(), i) && !succeeds(i))
      ensures !failed && completedNow == 0 ==> Done() == old(Done()) && Ready(dag.steps, Done()) <= Done()
    {
      completedNow := 0;
      for i := 0 to |dag.steps|
        invariant Consistent(succeeds) && |order| == |old(order)| + completedNow
        invariant completedNow == 0 ==>
                    && Done() == old(Done())
                    && forall k | 0 <= k < i :: k in Done() || !Satisfied(dag.steps, Done(), k)
      {
        if stepCompleted[i] {
          continue;
        }
        var met := StepDependenciesMet(i);
        if !met {
          continue;
        }
        if !succeeds(i) {
          return true, completedNow;
        }
        Complete(i, succeeds);
        completedNow := completedNow + 1;
      }
      failed := false;
    }

    lemma Bounds(succeeds: nat -> bool)
      requires Consistent(succeeds)
      ensures |order| <= |dag.steps|
      ensures |order| == |dag.steps| <==> Done() == All(dag.steps)
      ensures Done() <= Completable(dag.steps) <= All(dag.steps)
    {
      OrderBound(order, |dag.steps|);
      CompletableIsLeastFixpoint(dag.steps);
    }

    /** What a pass that completed nothing has reached. */
    lemma NothingReadyMeansComplete(succeeds: nat -> bool)
      requires Consistent(succeeds) && Ready(dag.steps, Done()) <= Done()
      ensures Done() == Completable(dag.steps)
    {
      CompletableIsLeastFixpoint(dag.steps);
    }

    lemma StartIsConsistent(succeeds: nat -> bool)
      requires Valid() && order == [] && forall i | 0 <= i < stepCompleted.Length :: !stepCompleted[i]
      ensures Consistent(succeeds)
    {
      assert Done() == {};
    }

    /** Runs the DAG; `succeeds` says for each step whether its body returns RESULT_OK. */
    method Execute(succeeds: nat -> bool) returns (code: ResultCode, ghost passes: nat)
      requires Valid()
      modifies this, stepCompleted
      ensures Consistent(succeeds)
      ensures code == Ok <==> Done() == All(dag.steps)
      ensures status == if code == Ok then Completed else Failed
      ensures code == ErrInvalid ==>
                || Done() == Completable(dag.steps)
                || exists i :: 0 <= i < |dag.steps| && i !in Done() && Satisfied(dag.steps, Done(), i) && !succeeds(i)
      ensures (forall i | 0 <= i < |dag.steps| :: succeeds(i)) ==>
                && Done() == Completable(dag.steps)
                && (code == Ok <==> AllResolve(dag.steps) && Acyclic(dag.steps))
      ensures passes <= |dag.steps|
    {
      hide Consistent, Satisfied, Ready, Completable, AllResolve, Acyclic, Entries;
      status := Running;
      order := [];
      passes := 0;
      forall i | 0 <= i < stepCompleted.Length {
        stepCompleted[i] := false;
      }
      CompletableIffAcyclic(dag.steps);
      StartIsConsistent(succeeds);
      Bounds(succeeds);
      var completedSteps := 0;
      while completedSteps < |dag.steps|
        invariant Valid() && Consistent(succeeds) && completedSteps == |order| <= |dag.steps|
        invariant passes <= completedSteps
        decreases |dag.steps| - completedSteps
      {
        var failed, completedNow := Pass(succeeds);
        passes := passes + 1;
        Bounds(succeeds);
        if failed {
          status := Failed;
          return ErrInvalid, passes;
        }
        if completedNow == 0 {
          NothingReadyMeansComplete(succeeds);
          status := Failed;
          return ErrInvalid, passes;
        }
        completedSteps := completedSteps + completedNow;
      }
      Bounds(succeeds);
      status := Completed;
      code := Ok;
    }
  }

  lemma OrderBound(order: seq<nat>, n: nat)
    requires forall k | 0 <= k < |order| :: order[k] < n
    requires forall k, l | 0 <= k < l < |order| :: order[k] != order[l]
    ensures |order| <= n && (|order| == n <==> Entries(order) == UpTo(n))
  {
    DistinctSize(order);
    SubsetSize(Entries(order), UpTo(n));
  }
}
