/** The suspend lists of rt-thread/src/ipc.c:50-162: threads wait in arrival order, or by priority with
    equals in arrival order. Threads are numbers; a smaller priority number is more urgent. */
module WaitList {
  import opened Sequences

  type Tid = nat

  datatype Flag = Fifo | Prio

  // thread->error after a wait
  datatype Err = EOK | ERROR | ETIMEOUT | EFULL

  ghost predicate Known(list: seq<Tid>, prio: map<Tid, nat>) {
    forall t :: t in list ==> t in prio
  }

  ghost predicate Sorted(list: seq<Tid>, prio: map<Tid, nat>)
    requires Known(list, prio)
  {
    forall i, j :: 0 <= i < j < |list| ==> prio[list[i]] <= prio[list[j]]
  }

  // t stands at position k, and the others keep their order
  ghost predicate InsertedAt(list: seq<Tid>, list': seq<Tid>, k: nat, t: Tid) {
    k <= |list| && list' == list[..k] + [t] + list[k..]
  }

  // t stands last, or in a priority list behind those as urgent as itself and in front of the next one
  ghost predicate Joined(list: seq<Tid>, list': seq<Tid>, t: Tid, flag: Flag, prio: map<Tid, nat>) {
    t in prio && Known(list, prio) && exists k :: InsertedAt(list, list', k, t) && Due(list, k, t, flag, prio)
  }

  ghost predicate Due(list: seq<Tid>, k: nat, t: Tid, flag: Flag, prio: map<Tid, nat>)
    requires t in prio && Known(list, prio) && k <= |list|
  {
    match flag
    case Fifo => k == |list|
    case Prio => (forall i :: 0 <= i < k ==> prio[list[i]] <= prio[t]) && (k < |list| ==> prio[t] < prio[list[k]])
  }

  /** rt_ipc_list_suspend: the place of the new waiter. */
  method Enqueue(list: seq<Tid>, t: Tid, flag: Flag, prio: map<Tid, nat>) returns (list': seq<Tid>, k: nat)
    requires t in prio && Known(list, prio)
    ensures InsertedAt(list, list', k, t) && Due(list, k, t, flag, prio) && Joined(list, list', t, flag, prio)
  {
    k := |list|;
    if flag == Prio {
      k := 0;
      while k < |list| && prio[t] >= prio[list[k]]
        invariant k <= |list| && forall i :: 0 <= i < k ==> prio[list[i]] <= prio[t]
      {
        k := k + 1;
      }
    }
    list' := list[..k] + [t] + list[k..];
    assert InsertedAt(list, list', k, t) && Due(list, k, t, flag, prio);
  }

  /** In a list of arrivals the new waiter is the last; in a priority list it stands behind all that are as urgent or
      more, and in front of the others. */
  lemma JoinedMeans(list: seq<Tid>, list': seq<Tid>, t: Tid, prio: map<Tid, nat>)
    ensures Joined(list, list', t, Fifo, prio) ==> list' == list + [t]
    ensures Joined(list, list', t, Prio, prio) && Sorted(list, prio) ==>
              exists k :: 0 <= k <= |list| && list' == list[..k] + [t] + list[k..]
                          && (forall i :: 0 <= i < k ==> prio[list[i]] <= prio[t])
                          && forall i :: k <= i < |list| ==> prio[t] < prio[list[i]]
  {
    if Joined(list, list', t, Fifo, prio) {
      var k: nat :| InsertedAt(list, list', k, t) && Due(list, k, t, Fifo, prio);
      assert list[..k] + [t] + list[k..] == list + [t];
    }
    if Joined(list, list', t, Prio, prio) && Sorted(list, prio) {
      var k: nat :| InsertedAt(list, list', k, t) && Due(list, k, t, Prio, prio);
      assert list' == list[..k] + [t] + list[k..];
    }
  }

  lemma InsertedDistinct(list: seq<Tid>, list': seq<Tid>, k: nat, t: Tid)
    requires InsertedAt(list, list', k, t) && Distinct(list) && t !in list
    ensures Distinct(list') && |list'| == |list| + 1
    ensures forall x :: x in list' <==> x in list || x == t
  {
    forall x
      ensures x in list' <==> x in list || x == t
    {
      if x in list {
        var i :| 0 <= i < |list| && list[i] == x;
        assert list'[if i < k then i else i + 1] == x;
      }
      assert list'[k] == t;
    }
  }

  /** In a priority list the waiters stay sorted, and equals stay in the order they came. */
  lemma InsertedSorted(list: seq<Tid>, list': seq<Tid>, k: nat, t: Tid, prio: map<Tid, nat>)
    requires InsertedAt(list, list', k, t) && t in prio && Known(list, prio) && Sorted(list, prio)
    requires forall i :: 0 <= i < k ==> prio[list[i]] <= prio[t]
    requires k < |list| ==> prio[t] < prio[list[k]]
    ensures Known(list', prio) && Sorted(list', prio)
    ensures forall i :: 0 <= i < |list'| && prio[list'[i]] == prio[t] ==> i <= k
  {
    forall i | 0 <= i < |list'|
      ensures list'[i] == if i < k then list[i] else if i == k then t else list[i - 1]
    {
    }
    assert Known(list', prio);
  }

  lemma WithoutSorted(list: seq<Tid>, t: Tid, prio: map<Tid, nat>)
    requires t in list && Known(list, prio) && Sorted(list, prio)
    ensures Known(Without(list, t), prio) && Sorted(Without(list, t), prio)
  {
    hide IndexOf, Without;
    WithoutIndex(list, t);
    var i := IndexOf(list, t);
    var r := Without(list, t);
    assert Known(r, prio);
    assert forall k :: 0 <= k < |r| ==> r[k] == list[if k < i then k else k + 1];
  }

  ghost function Members(list: seq<Tid>): set<Tid> {
    set t | t in list
  }
}
