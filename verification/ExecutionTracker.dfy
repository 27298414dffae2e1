// The table of running executions: reusable slots, ids that are never used twice.

module ExecutionTracker {
  import opened Bytes
  import opened Common

  const MAX_MESSAGE_SIZE: nat := 4096
  const CLEANUP_THRESHOLD: nat := 5 * 60 * 1000

  datatype Status = Pending | Running | Completed | Failed | Retrying | TimedOut

  /** What the caller submits, and what a lookup must give back. */
  datatype Job = Job(dag: nat, peer: nat, message: seq<Byte>)

  datatype Record = Record(
    id: nat,
    job: Job,
    status: Status,
    submitTime: nat,
    startTime: nat,
    completeTime: nat,
    maxRetries: Byte,
    active: bool)

  datatype Table = Table(records: seq<Record>, nextId: nat)

  // ---------------------------------------------------------------------------
  // The operations on values
  // ---------------------------------------------------------------------------

  function FreeSlot(rs: seq<Record>): (i: nat)
    ensures i <= |rs|
    ensures i < |rs| ==> !rs[i].active
    ensures forall j | 0 <= j < i :: rs[j].active
  {
    if |rs| == 0 || !rs[0].active then 0 else 1 + FreeSlot(rs[1..])
  }

  function SlotOf(rs: seq<Record>, id: nat): (i: nat)
    ensures i <= |rs|
    ensures i < |rs| ==> rs[i].active && rs[i].id == id
    ensures forall j | 0 <= j < i :: !(rs[j].active && rs[j].id == id)
  {
    if |rs| == 0 || (rs[0].active && rs[0].id == id) then 0 else 1 + SlotOf(rs[1..], id)
  }

  predicate Accepts(t: Table, job: Job) {
    0 < |job.message| <= MAX_MESSAGE_SIZE && FreeSlot(t.records) < |t.records|
  }

  function Submitted(t: Table, job: Job, maxRetries: Byte, now: nat): Table {
    if Accepts(t, job)
    then Table(t.records[FreeSlot(t.records) := Record(t.nextId, job, Pending, now, 0, 0, maxRetries, true)],
              t.nextId + 1)
    else t
  }

  function Restated(r: Record, status: Status, now: nat): Record {
    if status == Running && r.status == Pending then r.(status := status, startTime := now)
    else if status == Completed || status == Failed then r.(status := status, completeTime := now)
    else r.(status := status)
  }

  function StatusSet(t: Table, id: nat, status: Status, now: nat): Table {
    var i := SlotOf(t.records, id);
    if id == 0 || i == |t.records| then t else t.(records := t.records[i := Restated(t.records[i], status, now)])
  }

  function Removed(t: Table, id: nat): Table {
    var i := SlotOf(t.records, id);
    if id == 0 || i == |t.records| then t else t.(records := t.records[i := t.records[i].(active := false)])
  }

  /** Finished, and for more than five minutes by unsigned subtraction. */
  predicate Expired(r: Record, now: nat) {
    && r.active
    && (r.status == Completed || r.status == Failed)
    && r.completeTime > 0
    && Elapsed(now, r.completeTime) > CLEANUP_THRESHOLD
  }

  function Swept(rs: seq<Record>, now: nat): (out: seq<Record>)
    ensures |out| == |rs|
    ensures forall i | 0 <= i < |rs| :: out[i] == if Expired(rs[i], now) then rs[i].(active := false) else rs[i]
  {
    seq(|rs|, i requires 0 <= i < |rs| => if Expired(rs[i], now) then rs[i].(active := false) else rs[i])
  }

  datatype Op =
    | Submit(job: Job, maxRetries: Byte, now: nat)
    | SetStatus(id: nat, status: Status, now: nat)
    | Remove(id: nat)
    | Cleanup(now: nat)

  function Next(t: Table, op: Op): Table {
    match op
    case Submit(job, maxRetries, now) => Submitted(t, job, maxRetries, now)
    case SetStatus(id, status, now) => StatusSet(t, id, status, now)
    case Remove(id) => Removed(t, id)
    case Cleanup(now) => t.(records := Swept(t.records, now))
  }

  // ---------------------------------------------------------------------------
  // Runs
  // ---------------------------------------------------------------------------

  function After(start: Table, ops: seq<Op>): Table {
    if |ops| == 0 then start else Next(After(start, ops[..|ops| - 1]), ops[|ops| - 1])
  }

  /** The job each id was handed out for. */
  function Ledger(start: Table, ops: seq<Op>): map<nat, Job> {
    if |ops| == 0 then map[]
    else
      var front, op := ops[..|ops| - 1], ops[|ops| - 1];
      var t := After(start, front);
      if op.Submit? && Accepts(t, op.job) then Ledger(start, front)[t.nextId := op.job] else Ledger(start, front)
  }

  ghost predicate Fresh(t: Table) {
    t.nextId == 1 && forall i | 0 <= i < |t.records| :: !t.records[i].active
  }

  /** Active ids are distinct and have been handed out, and each record holds the job of its id. */
  ghost predicate Faithful(t: Table, ledger: map<nat, Job>) {
    && t.nextId >= 1
    && (forall id :: id in ledger <==> 1 <= id < t.nextId)
    && (forall i | 0 <= i < |t.records| && t.records[i].active ::
          t.records[i].id in ledger && ledger[t.records[i].id] == t.records[i].job)
    && (forall i, j | 0 <= i < j < |t.records| && t.records[i].active && t.records[j].active ::
          t.records[i].id != t.records[j].id)
  }

  /** A submission changes the table exactly when its message has 1 to 4096 bytes and some slot is free. */
  lemma SubmissionAcceptedIff(t: Table, job: Job, maxRetries: Byte, now: nat)
    ensures Submitted(t, job, maxRetries, now) != t
       <==> 0 < |job.message| <= MAX_MESSAGE_SIZE && exists i :: 0 <= i < |t.records| && !t.records[i].active
  {
  }

  lemma SubmitKeepsFaithful(t: Table, ledger: map<nat, Job>, job: Job, maxRetries: Byte, now: nat)
    requires Faithful(t, ledger) && Accepts(t, job)
    ensures t.nextId !in ledger
    ensures Faithful(Submitted(t, job, maxRetries, now), ledger[t.nextId := job])
  {
  }

  lemma OthersKeepFaithful(t: Table, ledger: map<nat, Job>, op: Op)
    requires Faithful(t, ledger) && (op.Submit? ==> !Accepts(t, op.job))
    ensures Faithful(Next(t, op), ledger)
  {
  }

  /** In every run, from an empty table, ids count up from one without a gap or a repetition, at most one
      active record carries an id, and that record holds the job for which the id was issued, however
      often slots are reused. */
  lemma {:induction false} IdsAreFaithful(start: Table, ops: seq<Op>)
    requires Fresh(start)
    ensures Faithful(After(start, ops), Ledger(start, ops))
  {
    hide Next, Faithful;
    if |ops| == 0 {
      assert Faithful(start, map[]) by {
        FreshIsFaithful(start);
      }
    } else {
      var front, op := ops[..|ops| - 1], ops[|ops| - 1];
      var t := After(start, front);
      IdsAreFaithful(start, front);
      if op.Submit? && Accepts(t, op.job) {
        SubmitKeepsFaithful(t, Ledger(start, front), op.job, op.maxRetries, op.now);
        NextOfSubmit(t, op);
      } else {
        OthersKeepFaithful(t, Ledger(start, front), op);
      }
    }
  }

  lemma FreshIsFaithful(start: Table)
    requires Fresh(start)
    ensures Faithful(start, map[])
  {
  }

  lemma NextOfSubmit(t: Table, op: Op)
    requires op.Submit?
    ensures Next(t, op) == Submitted(t, op.job, op.maxRetries, op.now)
  {
  }

  /** What a lookup finds is the job of the id or nothing. */
  lemma LookupIsFaithful(start: Table, ops: seq<Op>, id: nat)
    requires Fresh(start)
    ensures var rs := After(start, ops).records;
            var i := SlotOf(rs, id);
            i < |rs| ==> id in Ledger(start, ops) && rs[i].job == Ledger(start, ops)[id]
  {
    IdsAreFaithful(start, ops);
  }

  ghost predicate Gone(t: Table, id: nat) {
    id < t.nextId && SlotOf(t.records, id) == |t.records|
  }

  lemma GoneStep(t: Table, op: Op, id: nat)
    requires Gone(t, id)
    ensures Gone(Next(t, op), id)
  {
    var u := Next(t, op);
    var i := SlotOf(u.records, id);
    if i < |u.records| {
      assert !(t.records[i].active && t.records[i].id == id);
    }
  }

  /** An execution that has left the table never comes back, under its own or another submission's slot. */
  lemma {:induction false} GoneStaysGone(t: Table, ops: seq<Op>, id: nat)
    requires Gone(t, id)
    ensures Gone(After(t, ops), id)
  {
    hide Gone, Next;
    if |ops| > 0 {
      GoneStaysGone(t, ops[..|ops| - 1], id);
      GoneStep(After(t, ops[..|ops| - 1]), ops[|ops| - 1], id);
    }
  }

  /** Cleaning up removes exactly the finished executions whose completion lies more than five minutes
      back, when the clock has not stepped back behind it. */
  lemma CleanupRemovesIff(t: Table, id: nat, now: nat)
    requires forall i, j | 0 <= i < j < |t.records| && t.records[i].active
              && t.records[j].active :: t.records[i].id != t.records[j].id
    requires now < TWO_TO_THE_64 && SlotOf(t.records, id) < |t.records|
    requires t.records[SlotOf(t.records, id)].completeTime <= now
    ensures var r := t.records[SlotOf(t.records, id)];
            SlotOf(Swept(t.records, now), id) == |t.records|
            <==> (r.status == Completed || r.status == Failed) && r.completeTime > 0
                      && now > r.completeTime + CLEANUP_THRESHOLD
  {
    var i, rs := SlotOf(t.records, id), Swept(t.records, now);
    assert Elapsed(now, t.records[i].completeTime) == now - t.records[i].completeTime;
    if SlotOf(rs, id) < |rs| {
      assert t.records[SlotOf(rs, id)].active && t.records[SlotOf(rs, id)].id == id;
    }
  }

  // ---------------------------------------------------------------------------
  // The table itself
  // ---------------------------------------------------------------------------

  class Tracker {
    const records: array<Record>
    var nextExecId: nat

    ghost function State(): Table
      reads this, records
    {
      Table(records[..], nextExecId)
    }

    constructor (capacity: nat)
      requires capacity > 0
      ensures fresh(records) && records.Length == capacity && Fresh(State())
    {
      records := new Record[capacity](_ => Record(0, Job(0, 0, []), Pending, 0, 0, 0, 0, false));
      nextExecId := 1;
    }

    /** Returns the new id, or 0 for an unacceptable message or a full table. */
    method Add(job: Job, maxRetries: Byte, now: nat) returns (id: nat)
      modifies this, records
      ensures id == if Accepts(old(State()), job) then old(nextExecId) else 0
      ensures State() == Submitted(old(State()), job, maxRetries, now)
    {
      if |job.message| == 0 || |job.message| > MAX_MESSAGE_SIZE {
        return 0;
      }
      for i := 0 to records.Length
        invariant forall j | 0 <= j < i :: records[j].active
      {
        if !records[i].active {
          assert FreeSlot(records[..]) == i;
          id := nextExecId;
          nextExecId := nextExecId + 1;
          records[i] := Record(id, job, Pending, now, 0, 0, maxRetries, true);
          return;
        }
      }
      return 0;
    }

    method UpdateStatus(id: nat, status: Status, now: nat) returns (code: ResultCode)
      modifies records
      ensures code == if id == 0 then ErrInvalid else if SlotOf(old(records[..]), id) < records.Length then
                Ok else ErrNotFound
      ensures State() == StatusSet(old(State()), id, status, now)
    {
      if id == 0 {
        return ErrInvalid;
      }
      for i := 0 to records.Length
        invariant forall j | 0 <= j < i :: !(records[j].active && records[j].id == id)
      {
        if records[i].active && records[i].id == id {
          assert SlotOf(records[..], id) == i;
          var oldStatus := records[i].status;
          ghost var was := records[..];
          records[i] := records[i].(status := status);
          if status == Running && oldStatus == Pending {
            records[i] := records[i].(startTime := now);
          } else if status == Completed || status == Failed {
            records[i] := records[i].(completeTime := now);
          }
          assert records[..] == was[i := Restated(was[i], status, now)];
          return Ok;
        }
      }
      return ErrNotFound;
    }

    /** The slot of the execution, or the capacity. */
    method Get(id: nat) returns (slot: nat)
      ensures slot == if id == 0 then records.Length else SlotOf(records[..], id)
    {
      if id == 0 {
        return records.Length;
      }
      slot := 0;
      while slot < records.Length
        invariant slot <= records.Length && forall j | 0 <= j < slot :: !(records[j].active && records[j].id == id)
      {
        if records[slot].active && records[slot].id == id {
          return;
        }
        slot := slot + 1;
      }
    }

    method Drop(id: nat) returns (code: ResultCode)
      modifies records
      ensures code == if id == 0 then ErrInvalid else if SlotOf(old(records[..]), id) < records.Length then
                Ok else ErrNotFound
      ensures State() == Removed(old(State()), id)
    {
      if id == 0 {
        return ErrInvalid;
      }
      var slot := Get(id);
      if slot == records.Length {
        return ErrNotFound;
      }
      records[slot] := records[slot].(active := false);
      return Ok;
    }

    method CleanupCompleted(now: nat) returns (cleaned: nat)
      modifies records
      ensures State() == old(State()).(records := Swept(old(records[..]), now))
      ensures cleaned == ExpiredCount(old(records[..]), now)
    {
      cleaned := 0;
      ghost var was := records[..];
      for i := 0 to records.Length
        invariant forall j | 0 <= j < i :: records[j] == Swept(was, now)[j]
        invariant forall j | i <= j < records.Length :: records[j] == was[j]
        invariant cleaned == ExpiredCount(was[..i], now)
      {
        assert was[..i + 1][..i] == was[..i];
        if Expired(records[i], now) {
          records[i] := records[i].(active := false);
          cleaned := cleaned + 1;
        }
      }
      assert was[..records.Length] == was;
    }
  }

  ghost function ActiveCount(rs: seq<Record>): nat {
    if |rs| == 0 then 0 else ActiveCount(rs[..|rs| - 1]) + if rs[|rs| - 1].active then 1 else 0
  }

  /** The number that a clean-up returns is the number of executions that left the table. */
  lemma {:induction false} CleanupCounts(rs: seq<Record>, now: nat)
    ensures ActiveCount(Swept(rs, now)) + ExpiredCount(rs, now) == ActiveCount(rs)
  {
    if |rs| > 0 {
      CleanupCounts(rs[..|rs| - 1], now);
      assert Swept(rs, now)[..|rs| - 1] == Swept(rs[..|rs| - 1], now);
    }
  }

  function ExpiredCount(rs: seq<Record>, now: nat): nat {
    if |rs| == 0 then 0 else ExpiredCount(rs[..|rs| - 1], now) + if Expired(rs[|rs| - 1], now) then 1 else 0
  }
}
