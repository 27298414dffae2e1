// What the record of an execution tells of its history, and when it leaves the table.

module ExecutionHistory {
  import opened Bytes
  import opened Common
  import opened ExecutionTracker

  // ---------------------------------------------------------------------------
  // One record, one step
  // ---------------------------------------------------------------------------

  ghost function RecordOf(t: Table, id: nat): Option<Record> {
    var i := SlotOf(t.records, id);
    if i < |t.records| then Some(t.records[i]) else None
  }

  ghost predicate Distinct(rs: seq<Record>) {
    forall i, j | 0 <= i < j < |rs| && rs[i].active && rs[j].active :: rs[i].id != rs[j].id
  }

  /** An id that has been handed out. */
  ghost predicate Issued(t: Table, id: nat) {
    1 <= id < t.nextId
  }

  lemma SlotIs(rs: seq<Record>, id: nat, k: nat)
    requires k <= |rs|
    requires k < |rs| ==> rs[k].active && rs[k].id == id
    requires forall j | 0 <= j < k :: !(rs[j].active && rs[j].id == id)
    ensures SlotOf(rs, id) == k
  {
  }

  lemma SubmitKeepsRecord(t: Table, job: Job, maxRetries: Byte, now: nat, id: nat)
    requires Distinct(t.records) && Issued(t, id)
    ensures RecordOf(Submitted(t, job, maxRetries, now), id) == RecordOf(t, id)
  {
    if Accepts(t, job) {
      SlotIs(Submitted(t, job, maxRetries, now).records, id, SlotOf(t.records, id));
    }
  }

  /** A submission that is accepted leaves its record under the id it was given. */
  lemma SubmitMakesRecord(t: Table, job: Job, maxRetries: Byte, now: nat)
    requires Accepts(t, job) && RecordOf(t, t.nextId).None?
    ensures RecordOf(Submitted(t, job, maxRetries, now), t.nextId)
         == Some(Record(t.nextId, job, Pending, now, 0, 0, maxRetries, true))
  {
    var i, u := FreeSlot(t.records), Submitted(t, job, maxRetries, now);
    SlotIs(u.records, t.nextId, i);
  }

  lemma StatusSetsRecord(t: Table, k: nat, status: Status, now: nat, id: nat)
    requires Distinct(t.records) && Issued(t, id)
    ensures RecordOf(StatusSet(t, k, status, now), id) ==
            match RecordOf(t, id)
            case None => None
            case Some(r) => Some(if k == id then Restated(r, status, now) else r)
  {
    SlotIs(StatusSet(t, k, status, now).records, id, SlotOf(t.records, id));
  }

  /** A removal takes exactly the execution of its id off the table. */
  lemma RemoveTakesRecord(t: Table, k: nat, id: nat)
    requires Distinct(t.records) && Issued(t, id)
    ensures RecordOf(Removed(t, k), id) == if k == id then None else RecordOf(t, id)
    ensures Gone(Removed(t, id), id)
  {
    RemovedSlot(t, k, id);
    RemovedSlot(t, id, id);
  }

  lemma RemovedSlot(t: Table, k: nat, id: nat)
    requires Distinct(t.records) && Issued(t, id)
    ensures SlotOf(Removed(t, k).records, id) == if k == id then |t.records| else SlotOf(t.records, id)
  {
    var i := SlotOf(t.records, id);
    if k == id && i < |t.records| {
      forall j | i < j < |t.records|
        ensures !(t.records[j].active && t.records[j].id == id)
      {
      }
    }
    SlotIs(Removed(t, k).records, id, if k == id then |t.records| else i);
  }

  lemma CleanupTakesRecord(t: Table, now: nat, id: nat)
    requires Distinct(t.records)
    ensures RecordOf(t.(records := Swept(t.records, now)), id) ==
            match RecordOf(t, id)
            case None => None
            case Some(r) => if Expired(r, now) then None else Some(r)
  {
    var i, rs := SlotOf(t.records, id), Swept(t.records, now);
    if i < |t.records| && Expired(t.records[i], now) {
      SlotIs(rs, id, |rs|);
    } else {
      SlotIs(rs, id, i);
    }
  }

  // ---------------------------------------------------------------------------
  // The history of one execution
  // ---------------------------------------------------------------------------

  /** A status that was set, and when. */
  datatype Change = Change(status: Status, at: nat)

  /** The changes that these operations make to one execution, in order. */
  ghost function Changes(ops: seq<Op>, id: nat): seq<Change> {
    if |ops| == 0 then []
    else
      var front, op := Changes(ops[..|ops| - 1], id), ops[|ops| - 1];
      if op.SetStatus? && op.id == id then front + [Change(op.status, op.now)] else front
  }

  predicate Final(status: Status) {
    status == Completed || status == Failed
  }

  ghost function StatusBefore(h: seq<Change>, i: nat): Status
    requires i <= |h|
  {
    if i == 0 then Pending else h[i - 1].status
  }

  /** Change i takes the execution from Pending to Running. */
  ghost predicate Starts(h: seq<Change>, i: nat) {
    i < |h| && h[i].status == Running && StatusBefore(h, i) == Pending
  }

  ghost predicate Finishes(h: seq<Change>, i: nat) {
    i < |h| && Final(h[i].status)
  }

  ghost predicate LastStart(h: seq<Change>, time: nat) {
    if exists i: nat :: Starts(h, i)
    then exists i: nat :: Starts(h, i) && time == h[i].at && forall j: nat | i < j :: !Starts(h, j)
    else time == 0
  }

  ghost predicate LastFinish(h: seq<Change>, time: nat) {
    if exists i: nat :: Finishes(h, i)
    then exists i: nat :: Finishes(h, i) && time == h[i].at && forall j: nat | i < j :: !Finishes(h, j)
    else time == 0
  }

  /** The record says when the execution last went from Pending to Running and when it was last set to Completed or
      Failed, and 0 for what never happened. */
  ghost predicate Tells(r: Record, h: seq<Change>) {
    && r.status == StatusBefore(h, |h|)
    && LastStart(h, r.startTime)
    && LastFinish(h, r.completeTime)
  }

  lemma RestatedTells(r: Record, h: seq<Change>, status: Status, now: nat)
    requires Tells(r, h)
    ensures Tells(Restated(r, status, now), h + [Change(status, now)])
    ensures Restated(r, status, now)
         == r.(status := status, startTime := Restated(r, status, now).startTime,
               completeTime := Restated(r, status, now).completeTime)
  {
    hide Starts, Finishes, LastStart, LastFinish;
    StartsOneMore(h, Change(status, now), r.startTime);
    FinishesOneMore(h, Change(status, now), r.completeTime);
  }

  lemma StartsOneMore(h: seq<Change>, x: Change, time: nat)
    requires LastStart(h, time)
    ensures LastStart(h + [x], if x.status == Running && StatusBefore(h, |h|) == Pending then x.at else time)
  {
    var g, n := h + [x], |h|;
    assert StatusBefore(g, n) == StatusBefore(h, n);
    forall i: nat | i < n
      ensures Starts(g, i) <==> Starts(h, i)
    {
      assert StatusBefore(g, i) == StatusBefore(h, i);
    }
    if !Starts(g, n) && exists i: nat :: Starts(h, i) {
      var i: nat :| Starts(h, i) && time == h[i].at && forall j: nat | i < j :: !Starts(h, j);
      assert Starts(g, i) && forall j: nat | i < j :: !Starts(g, j);
    }
  }

  lemma FinishesOneMore(h: seq<Change>, x: Change, time: nat)
    requires LastFinish(h, time)
    ensures LastFinish(h + [x], if Final(x.status) then x.at else time)
  {
    var g, n := h + [x], |h|;
    assert forall i: nat | i < n :: Finishes(g, i) <==> Finishes(h, i);
    if !Finishes(g, n) && exists i: nat :: Finishes(h, i) {
      var i: nat :| Finishes(h, i) && time == h[i].at && forall j: nat | i < j :: !Finishes(h, j);
      assert Finishes(g, i) && forall j: nat | i < j :: !Finishes(g, j);
    }
  }

  // ---------------------------------------------------------------------------
  // Runs
  // ---------------------------------------------------------------------------

  lemma {:induction false} AfterSplit(start: Table, a: seq<Op>, b: seq<Op>)
    ensures After(start, a + b) == After(After(start, a), b)
  {
    if |b| == 0 {
      assert a + b == a;
    } else {
      assert (a + b)[..|a + b| - 1] == a + b[..|b| - 1];
      AfterSplit(start, a, b[..|b| - 1]);
    }
  }

  /** Tables that a run from an empty one can reach. */
  ghost predicate Reached(t: Table) {
    exists start: Table, ops: seq<Op> :: Fresh(start) && t == After(start, ops)
  }

  lemma ReachedStep(t: Table, op: Op)
    requires Reached(t)
    ensures Reached(Next(t, op))
  {
    var start, ops :| Fresh(start) && t == After(start, ops);
    assert (ops + [op])[..|ops|] == ops;
    assert After(start, ops + [op]) == Next(t, op);
  }

  lemma ReachedIsSound(t: Table)
    requires Reached(t)
    ensures t.nextId >= 1 && Distinct(t.records) && RecordOf(t, t.nextId).None? && RecordOf(t, 0).None?
  {
    var start, ops :| Fresh(start) && t == After(start, ops);
    IdsAreFaithful(start, ops);
  }

  lemma IssuedStep(t: Table, op: Op, id: nat)
    requires Issued(t, id)
    ensures Issued(Next(t, op), id)
  {
  }

  lemma RecordStep(t: Table, op: Op, id: nat)
    requires Reached(t) && Issued(t, id)
    ensures RecordOf(Next(t, op), id) ==
            match RecordOf(t, id)
            case None => None
            case Some(r) =>
              match op
              case Submit(_, _, _) => Some(r)
              case SetStatus(k, status, now) => Some(if k == id then Restated(r, status, now) else r)
              case Remove(k) => if k == id then None else Some(r)
              case Cleanup(now) => if Expired(r, now) then None else Some(r)
  {
    ReachedIsSound(t);
    hide Reached, RecordOf, Submitted, StatusSet, Removed, Expired, Restated, Distinct, Issued;
    match op
    case Submit(job, maxRetries, now) => SubmitKeepsRecord(t, job, maxRetries, now, id);
    case SetStatus(k, status, now) => StatusSetsRecord(t, k, status, now, id);
    case Remove(k) => RemoveTakesRecord(t, k, id);
    case Cleanup(now) => CleanupTakesRecord(t, now, id);
  }

  /** However the table is used after a submission was accepted, the record of the execution, as long as it is there,
      holds the job, the time of submission and the retries it was submitted with, and tells its history. */
  lemma {:induction false} RecordTellsHistory(t: Table, job: Job, maxRetries: Byte, now: nat, ops: seq<Op>)
    requires Reached(t) && Accepts(t, job)
    ensures var id, u := t.nextId, After(Submitted(t, job, maxRetries, now), ops);
            && Reached(u) && Issued(u, id)
            && match RecordOf(u, id)
               case None => true
               case Some(r) =>
                 && r.id == id && r.job == job && r.submitTime == now && r.maxRetries == maxRetries && r.active
                 && Tells(r, Changes(ops, id))
  {
    var id, s := t.nextId, Submitted(t, job, maxRetries, now);
    ReachedIsSound(t);
    if |ops| == 0 {
      ReachedStep(t, Submit(job, maxRetries, now));
      SubmitMakesRecord(t, job, maxRetries, now);
    } else {
      hide Reached, RecordOf, Tells, Next, Submitted, Issued;
      var front, op := ops[..|ops| - 1], ops[|ops| - 1];
      RecordTellsHistory(t, job, maxRetries, now, front);
      var u := After(s, front);
      ReachedStep(u, op);
      IssuedStep(u, op, id);
      RecordStep(u, op, id);
      if RecordOf(u, id).Some? && op.SetStatus? && op.id == id {
        RestatedTells(RecordOf(u, id).value, Changes(front, id), op.status, op.now);
      }
    }
  }

  /** Nothing in these operations restates or removes the execution. */
  ghost predicate LeftAlone(ops: seq<Op>, id: nat) {
    forall k | 0 <= k < |ops| :: !(ops[k].SetStatus? && ops[k].id == id) && !(ops[k].Remove? && ops[k].id == id)
  }

  /** One of these operations is a clean-up more than five minutes after the time. */
  ghost predicate CleanedLate(ops: seq<Op>, done: nat) {
    exists k :: 0 <= k < |ops| && ops[k].Cleanup? && Elapsed(ops[k].now, done) > CLEANUP_THRESHOLD
  }

  lemma {:induction false} FinishedStays(t: Table, id: nat, r: Record, ops: seq<Op>)
    requires Reached(t) && Issued(t, id) && RecordOf(t, id) == Some(r) && r.active && LeftAlone(ops, id)
    ensures var u := After(t, ops);
            && Reached(u) && Issued(u, id)
            && RecordOf(u, id) == if Final(r.status) && r.completeTime > 0 && CleanedLate(ops, r.completeTime)
                                  then None else Some(r)
  {
    if |ops| > 0 {
      hide Reached, RecordOf, Next, Issued;
      var front, op := ops[..|ops| - 1], ops[|ops| - 1];
      assert forall k | 0 <= k < |front| :: front[k] == ops[k];
      FinishedStays(t, id, r, front);
      var u := After(t, front);
      ReachedStep(u, op);
      IssuedStep(u, op, id);
      RecordStep(u, op, id);
      LateOneMore(ops, r.completeTime);
    }
  }

  lemma LateOneMore(ops: seq<Op>, done: nat)
    requires |ops| > 0
    ensures var op := ops[|ops| - 1];
            CleanedLate(ops, done)
            <==> CleanedLate(ops[..|ops| - 1], done)
                 || (op.Cleanup? && Elapsed(op.now, done) > CLEANUP_THRESHOLD)
  {
    var front := ops[..|ops| - 1];
    if CleanedLate(front, done) {
      var k :| 0 <= k < |front| && front[k].Cleanup? && Elapsed(front[k].now, done) > CLEANUP_THRESHOLD;
      assert ops[k] == front[k];
    }
    if k :| 0 <= k < |ops| && ops[k].Cleanup? && Elapsed(ops[k].now, done) > CLEANUP_THRESHOLD {
      if k < |front| {
        assert front[k] == ops[k];
      }
    }
  }

  /** An execution that is set to Completed or Failed at a time after 0, and then neither restated nor removed, is in
      the table until a clean-up runs more than five minutes later, and gone from then on. */
  lemma FinishedIsCollectedIff(t: Table, id: nat, status: Status, done: nat, ops: seq<Op>)
    requires Reached(t) && Issued(t, id) && RecordOf(t, id).Some? && Final(status) && done > 0 && LeftAlone(ops, id)
    ensures var u := After(Next(t, SetStatus(id, status, done)), ops);
            && (RecordOf(u, id).None? <==> CleanedLate(ops, done))
            && (CleanedLate(ops, done) ==> Gone(u, id))
            && (RecordOf(u, id).Some? ==> RecordOf(u, id).value.status == status
                                          && RecordOf(u, id).value.completeTime == done)
  {
    var op := SetStatus(id, status, done);
    ReachedStep(t, op);
    IssuedStep(t, op, id);
    RecordStep(t, op, id);
    FinishedStays(Next(t, op), id, RecordOf(Next(t, op), id).value, ops);
  }

  /** An execution that has not been set to Completed or Failed is never cleaned away. */
  lemma UnfinishedIsKept(t: Table, id: nat, ops: seq<Op>)
    requires Reached(t) && Issued(t, id) && RecordOf(t, id).Some? && !Final(RecordOf(t, id).value.status)
    requires LeftAlone(ops, id)
    ensures RecordOf(After(t, ops), id) == RecordOf(t, id)
  {
    FinishedStays(t, id, RecordOf(t, id).value, ops);
  }
}
