// The DAG record shared by the executor, the catalog and the codec.

module Dags {
  import opened Bytes
  import opened Common

  const MAX_DAG_NAME: nat := 64
  const MAX_DAG_STEPS: nat := 128
  const MAX_STEP_NAME: nat := 64
  const MAX_STEP_DEPENDENCIES: nat := 16

  /** config is the buffer config_data points to, None when the pointer is NULL. */
  datatype Step = Step(
    id: Word32,
    name: seq<Byte>,
    functionName: seq<Byte>,
    dependencies: seq<Word32>,
    timeout: Word32,
    maxRetries: Byte,
    configLen: nat,
    config: Option<seq<Byte>>)

  datatype Dag = Dag(
    id: Word32,
    name: seq<Byte>,
    version: Word64,
    steps: seq<Step>,
    createdAt: nat,
    updatedAt: nat)

  /** The step a dependency names: the first one with that id, or the number of steps. */
  function Resolve(steps: seq<Step>, id: Word32): (j: nat)
    ensures j <= |steps|
    ensures j < |steps| ==> steps[j].id == id
    ensures forall k | 0 <= k < j :: steps[k].id != id
  {
    if |steps| == 0 || steps[0].id == id then 0 else 1 + Resolve(steps[1..], id)
  }

  /** Step i waits for step j. */
  ghost predicate Edge(steps: seq<Step>, i: nat, j: nat) {
    && i < |steps| && j < |steps|
    && exists d :: d in steps[i].dependencies && Resolve(steps, d) == j
  }

  /** Every dependency names some step. */
  ghost predicate AllResolve(steps: seq<Step>) {
    forall i, d | 0 <= i < |steps| && d in steps[i].dependencies :: Resolve(steps, d) < |steps|
  }

  /** A closed walk along the dependency edges. */
  ghost predicate Cycle(steps: seq<Step>, walk: seq<nat>) {
    && |walk| >= 2
    && walk[0] == walk[|walk| - 1]
    && forall k | 0 <= k < |walk| - 1 :: Edge(steps, walk[k], walk[k + 1])
  }

  ghost predicate Acyclic(steps: seq<Step>) {
    forall walk: seq<nat> :: !Cycle(steps, walk)
  }
}
