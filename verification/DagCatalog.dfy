// The bounded table of DAGs that a node keeps, seen as a map from ids to DAGs.

module DagCatalog {
  import opened Bytes
  import opened Common
  import opened Dags

  ghost predicate DistinctIds(ds: seq<Dag>) {
    forall i, j | 0 <= i < j < |ds| :: ds[i].id != ds[j].id
  }

  /** The catalog as a map from ids to DAGs. */
  ghost function AsMap(ds: seq<Dag>): map<Word32, Dag> {
    if |ds| == 0 then map[] else AsMap(ds[..|ds| - 1])[ds[|ds| - 1].id := ds[|ds| - 1]]
  }

  lemma {:induction false} AsMapHolds(ds: seq<Dag>, id: Word32)
    requires DistinctIds(ds)
    ensures id in AsMap(ds) <==> exists i :: 0 <= i < |ds| && ds[i].id == id
    ensures forall i | 0 <= i < |ds| && ds[i].id == id :: AsMap(ds)[id] == ds[i]
    ensures |AsMap(ds)| == |ds|
  {
    if |ds| > 0 {
      var front, last := ds[..|ds| - 1], ds[|ds| - 1];
      AsMapHolds(front, id);
      AsMapHolds(front, last.id);
      assert forall i | 0 <= i < |front| :: front[i] == ds[i];
      assert AsMap(ds).Keys == AsMap(front).Keys + {last.id};
    }
  }

  /** Two sequences describe the same map as soon as they hold the same DAGs. */
  lemma MapIs(ds: seq<Dag>, m: map<Word32, Dag>)
    requires DistinctIds(ds)
    requires forall i | 0 <= i < |ds| :: ds[i].id in m && m[ds[i].id] == ds[i]
    requires forall id | id in m :: exists i :: 0 <= i < |ds| && ds[i].id == id
    ensures AsMap(ds) == m
  {
    forall id: Word32
      ensures id in AsMap(ds) <==> id in m
      ensures id in m ==> AsMap(ds)[id] == m[id]
    {
      AsMapHolds(ds, id);
    }
    assert AsMap(ds).Keys == m.Keys;
  }

  class Catalog {
    const dags: array<Dag>
    var count: nat

    ghost predicate Valid()
      reads this, dags
    {
      count <= dags.Length && DistinctIds(dags[..count])
    }

    /** What the catalog stands for. */
    ghost function Entries(): map<Word32, Dag>
      requires Valid()
      reads this, dags
    {
      AsMap(dags[..count])
    }

    constructor (capacity: nat)
      ensures Valid() && fresh(dags) && dags.Length == capacity && Entries() == map[]
    {
      dags := new Dag[capacity](_ => Dag(0, [], 0, [], 0, 0));
      count := 0;
    }

    /** The slot of the DAG with this id, or count. */
    method IndexOf(id: Word32) returns (i: nat)
      requires Valid()
      ensures i <= count && (i < count <==> id in Entries())
      ensures i < count ==> dags[i].id == id && Entries()[id] == dags[i]
    {
      AsMapHolds(dags[..count], id);
      i := 0;
      while i < count
        invariant i <= count && forall k | 0 <= k < i :: dags[k].id != id
      {
        if dags[i].id == id {
          return;
        }
        i := i + 1;
      }
    }

    method Add(d: Dag) returns (code: ResultCode)
      requires Valid()
      modifies this, dags
      ensures Valid()
      ensures code == if d.id in old(Entries()) then ErrExists
                      else if |old(Entries())| == dags.Length then ErrFull else Ok
      ensures Entries() == if code == Ok then old(Entries())[d.id := d] else old(Entries())
    {
      AsMapHolds(dags[..count], d.id);
      var i := IndexOf(d.id);
      if i < count {
        return ErrExists;
      }
      if count >= dags.Length {
        return ErrFull;
      }
      dags[count] := d;
      count := count + 1;
      assert dags[..count][..count - 1] == old(dags[..count]);
      return Ok;
    }

    method Update(d: Dag, now: nat) returns (code: ResultCode)
      requires Valid()
      modifies dags
      ensures Valid()
      ensures code == if d.id in old(Entries()) then Ok else ErrNotFound
      ensures Entries() == if code == Ok then old(Entries())[d.id := d.(updatedAt := now)] else old(Entries())
    {
      var i := IndexOf(d.id);
      if i == count {
        return ErrNotFound;
      }
      ghost var before, m := dags[..count], Entries();
      dags[i] := d;
      dags[i] := dags[i].(updatedAt := now);
      Others(before, dags[..count], m[d.id := dags[i]], i);
      return Ok;
    }

    method Remove(id: Word32) returns (code: ResultCode)
      requires Valid()
      modifies this, dags
      ensures Valid()
      ensures code == if id in old(Entries()) then Ok else ErrNotFound
      ensures Entries() == old(Entries()) - {id}
    {
      var i := IndexOf(id);
      if i == count {
        return ErrNotFound;
      }
      ghost var before := dags[..count];
      forall k | i <= k < count - 1 {
        dags[k] := dags[k + 1];
      }
      count := count - 1;
      CutOut(before, dags[..count], i);
      Dropped(before, i);
      return Ok;
    }

    /** The ids of the first DAGs, at most max of them, without repetition. */
    method List(max: nat) returns (ids: seq<Word32>)
      requires Valid()
      ensures |ids| == if count < max then count else max
      ensures forall i, j | 0 <= i < j < |ids| :: ids[i] != ids[j]
      ensures forall id | id in ids :: id in Entries()
      ensures max >= count ==> forall id | id in Entries() :: id in ids
    {
      var n := if count < max then count else max;
      ids := [];
      for i := 0 to n
        invariant |ids| == i && forall k | 0 <= k < i :: ids[k] == dags[k].id
      {
        ids := ids + [dags[i].id];
      }
      forall id: Word32
        ensures id in ids ==> id in Entries()
        ensures max >= count && id in Entries() ==> id in ids
      {
        AsMapHolds(dags[..count], id);
      }
    }
  }

  lemma Others(before: seq<Dag>, after: seq<Dag>, m: map<Word32, Dag>, i: nat)
    requires DistinctIds(before) && i < |before| && |after| == |before|
    requires after == before[i := after[i]] && after[i].id == before[i].id
    requires m == AsMap(before)[after[i].id := after[i]]
    ensures DistinctIds(after) && AsMap(after) == m
  {
    forall k | 0 <= k < |after|
      ensures after[k].id in m && m[after[k].id] == after[k]
    {
      AsMapHolds(before, after[k].id);
      assert before[k].id == after[k].id;
    }
    forall id | id in m
      ensures exists k :: 0 <= k < |after| && after[k].id == id
    {
      AsMapHolds(before, id);
      if id in AsMap(before) {
        var k :| 0 <= k < |before| && before[k].id == id;
        assert after[k].id == id;
      }
    }
    MapIs(after, m);
  }

  lemma Dropped(before: seq<Dag>, i: nat)
    requires DistinctIds(before) && i < |before|
    ensures DistinctIds(before[..i] + before[i + 1..])
    ensures AsMap(before[..i] + before[i + 1..]) == AsMap(before) - {before[i].id}
  {
    var after, m := before[..i] + before[i + 1..], AsMap(before) - {before[i].id};
    hide AsMap;
    assert forall k | 0 <= k < |after| :: after[k] == before[if k < i then k else k + 1];
    forall k | 0 <= k < |after|
      ensures after[k].id in m && m[after[k].id] == after[k]
    {
      AsMapHolds(before, after[k].id);
    }
    forall id | id in m
      ensures exists k :: 0 <= k < |after| && after[k].id == id
    {
      StillThere(before, i, id);
    }
    MapIs(after, m);
  }

  lemma StillThere(before: seq<Dag>, i: nat, id: Word32)
    requires DistinctIds(before) && i < |before| && id in AsMap(before) && id != before[i].id
    ensures var after := before[..i] + before[i + 1..];
            exists k :: 0 <= k < |after| && after[k].id == id
  {
    hide AsMap;
    var after := before[..i] + before[i + 1..];
    AsMapHolds(before, id);
    var k :| 0 <= k < |before| && before[k].id == id;
    var at := if k < i then k else k - 1;
    assert after[at] == before[k];
  }
}
