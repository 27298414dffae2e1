// The pool of peers a router hands work to.

module PeerPool {
  import opened Bytes
  import opened Common
  import opened Nodes
  import opened RoundRobin

  ghost predicate DistinctIds(ps: seq<Peer>) {
    forall i, j | 0 <= i < j < |ps| :: ps[i].id != ps[j].id
  }

  ghost predicate Dropped(before: seq<Peer>, after: seq<Peer>, id: NodeId, i: nat) {
    i < |before| && before[i].id == id && after == before[..i] + before[i + 1..]
  }

  lemma DroppedIsGone(before: seq<Peer>, after: seq<Peer>, id: NodeId, i: nat)
    requires DistinctIds(before) && Dropped(before, after, id, i)
    ensures DistinctIds(after) && forall k | 0 <= k < |after| :: after[k].id != id
  {
  }

  class Pool {
    const peers: array<Peer>
    var count: nat
    var roundRobinIndex: nat

    ghost predicate Valid()
      reads this, peers
    {
      count <= peers.Length && DistinctIds(peers[..count])
    }

    ghost function Contents(): (ps: seq<Peer>)
      requires Valid()
      reads this, peers
      ensures |ps| == count && DistinctIds(ps)
    {
      peers[..count]
    }

    constructor (capacity: nat)
      requires capacity > 0
      ensures Valid() && fresh(peers) && peers.Length == capacity && Contents() == []
    {
      peers := new Peer[capacity](_ => Peer(0, 0, [], 0, 0, 0, 0, false));
      count, roundRobinIndex := 0, 0;
    }

    /** A known id is left as it is; a new one is appended if there is room. */
    method Add(id: NodeId, ip: seq<Byte>, gossipPort: Port, dataPort: Port, now: nat) returns (code: ResultCode)
      requires Valid()
      modifies this`count, peers
      ensures Valid()
      ensures var known := exists i :: 0 <= i < |old(Contents())| && old(Contents())[i].id == id;
              && code == (if !known && old(count) == peers.Length then ErrFull else Ok)
              && Contents() == if known || code == ErrFull then old(Contents())
                               else old(Contents()) + [Peer(id, NODE_TYPE_WORKER, Truncated(ip, MAX_IP_LEN),
                                         gossipPort, dataPort, ALIVE, now, true)]
    {
      for i := 0 to count
        invariant forall j | 0 <= j < i :: peers[j].id != id
      {
        if peers[i].id == id {
          assert peers[i] == Contents()[i];
          return Ok;
        }
      }
      if count >= peers.Length {
        return ErrFull;
      }
      peers[count] := Peer(id, NODE_TYPE_WORKER, Truncated(ip, MAX_IP_LEN), gossipPort, dataPort, ALIVE, now, true);
      count := count + 1;
      return Ok;
    }

    /** Drops the peer with this id and keeps the others in order. */
    method Remove(id: NodeId) returns (code: ResultCode)
      requires Valid()
      modifies this`count, peers
      ensures Valid()
      ensures forall i | 0 <= i < count :: Contents()[i].id != id
      ensures code == ErrNotFound ==> Contents() == old(Contents())
      ensures code != ErrNotFound ==>
                code == Ok && exists i: nat :: Dropped(old(Contents()), Contents(), id, i)
    {
      for i := 0 to count
        invariant forall j | 0 <= j < i :: peers[j].id != id
      {
        if peers[i].id == id {
          ghost var before := peers[..count];
          forall k | i <= k < count - 1 {
            peers[k] := peers[k + 1];
          }
          count := count - 1;
          CutOut(before, peers[..count], i);
          assert before == old(Contents()) && Dropped(before, Contents(), id, i);
          DroppedIsGone(before, Contents(), id, i);
          return Ok;
        }
      }
      return ErrNotFound;
    }

    /** The id at the first eligible position from the counter on, or 0 when there is none. */
    method SelectRoundRobin() returns (id: NodeId)
      requires Valid()
      modifies this`roundRobinIndex
      ensures count == 0 ==> id == 0 && roundRobinIndex == old(roundRobinIndex)
      ensures count > 0 ==>
                var at := Pick(Contents(), old(roundRobinIndex), count);
                if at < old(roundRobinIndex) + count
                then id == Contents()[at % count].id && roundRobinIndex == at + 1
                else id == 0 && roundRobinIndex == at
    {
      if count == 0 {
        return 0;
      }
      ghost var g, ps := roundRobinIndex, Contents();
      var attempts := 0;
      while attempts < count
        invariant attempts <= count && roundRobinIndex == g + attempts
        invariant Pick(ps, g, count) == Pick(ps, g + attempts, count - attempts)
      {
        var idx := roundRobinIndex % count;
        roundRobinIndex := roundRobinIndex + 1;
        if peers[idx].status == ALIVE && peers[idx].canExecute {
          return peers[idx].id;
        }
        attempts := attempts + 1;
      }
      return 0;
    }
  }
}
