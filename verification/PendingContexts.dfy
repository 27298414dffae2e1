// The linked list of RPC requests that wait for their response.

module PendingContexts {

  class Context {
    const requestId: nat
    var next: Context?

    constructor (requestId: nat)
      ensures this.requestId == requestId && next == null
    {
      this.requestId := requestId;
      next := null;
    }
  }

  function Without<T(==)>(s: seq<T>, x: T): (r: seq<T>)
    ensures x !in s ==> r == s
  {
    if |s| == 0 then [] else if s[0] == x then s[1..] else [s[0]] + Without(s[1..], x)
  }

  lemma {:induction false} WithoutAt<T>(s: seq<T>, x: T, i: nat)
    requires i < |s| && s[i] == x && x !in s[..i]
    ensures Without(s, x) == s[..i] + s[i + 1..]
  {
    if i > 0 {
      var t := s[1..];
      assert s[..i] == [s[0]] + t[..i - 1] && t[i..] == s[i + 1..];
      WithoutAt(t, x, i - 1);
    }
  }

  lemma CutIndices<T>(s: seq<T>, i: nat)
    requires i < |s| && forall j, k | 0 <= j < k < |s| :: s[j] != s[k]
    ensures var r := s[..i] + s[i + 1..];
            && |r| == |s| - 1
            && (forall k | 0 <= k < |r| :: r[k] == s[if k < i then k else k + 1])
            && (forall j, k | 0 <= j < k < |r| :: r[j] != r[k])
  {
  }

  /** The list headed by g_pending_contexts; the spine lists its nodes from the head on. */
  class PendingList {
    var head: Context?
    ghost var spine: seq<Context>

    ghost function Link(i: nat): Context?
      requires i <= |spine|
      reads this
    {
      if i < |spine| then spine[i] else null
    }

    ghost predicate Valid()
      reads this, spine
    {
      && head == Link(0)
      && (forall i | 0 <= i < |spine| :: spine[i].next == Link(i + 1))
      && (forall i, j | 0 <= i < j < |spine| :: spine[i] != spine[j])
    }

    constructor ()
      ensures Valid() && spine == []
    {
      head, spine := null, [];
    }

    /** A request that has been dispatched is put in front. */
    method Add(context: Context)
      requires Valid() && context !in spine
      modifies this, context
      ensures Valid() && spine == [context] + old(spine)
    {
      context.next := head;
      head := context;
      spine := [context] + spine;
      forall i | 0 <= i < |spine|
        ensures spine[i].next == Link(i + 1)
      {
        if i > 0 {
          assert spine[i] == old(spine)[i - 1];
        }
      }
      assert forall i | 1 <= i < |spine| :: spine[i] == old(spine)[i - 1];
    }

    /** Redirects the pointer that leads to the context: the head, or the link of the node before it. */
    method Unlink(before: Context?, context: Context, ghost i: nat)
      requires Valid() && i < |spine| && spine[i] == context
      requires before == if i == 0 then null else spine[i - 1]
      modifies this, before
      ensures Valid() && spine == old(spine)[..i] + old(spine)[i + 1..]
    {
      ghost var was := spine;
      spine := was[..i] + was[i + 1..];
      CutIndices(was, i);
      if before == null {
        head := context.next;
      } else {
        before.next := context.next;
      }
      forall k | 0 <= k < |spine|
        ensures spine[k].next == Link(k + 1)
      {
        assert spine[k] == was[if k < i then k else k + 1];
      }
      assert forall k | i <= k < |spine| :: spine[k] == was[k + 1];
    }

    /** Takes the context out; every other context stays, in the same order, and an unknown context
        changes nothing. */
    method Remove(context: Context)
      requires Valid()
      modifies this, spine
      ensures Valid() && spine == Without(old(spine), context) && context !in spine
    {
      var before: Context? := null;
      var at := head;
      ghost var i := 0;
      while at != null
        invariant i <= |spine| && at == Link(i)
        invariant before == if i == 0 then null else spine[i - 1]
        invariant context !in spine[..i]
        decreases |spine| - i
      {
        if at == context {
          WithoutAt(spine, context, i);
          Unlink(before, context, i);
          return;
        }
        before, at := at, at.next;
        i := i + 1;
      }
      assert spine[..|spine|] == spine;
    }
  }
}
