/** Mutexes with priority inheritance of rt-thread/src/ipc.c:533-920. A method is one region with interrupts
    disabled. Thread priorities change through this mutex only; a smaller number is more urgent. */
module Mutex {
  import opened Sequences
  import opened WaitList

  datatype Owner = Nobody | Is(t: Tid)

  const HOLD_MAX: nat := 255     // rt_uint8_t hold
  const NO_PRIORITY: nat := 0xFF

  // value, owner and hold always agree
  ghost predicate Coherent(value: nat, owner: Owner, original: nat, hold: nat, list: seq<Tid>) {
    && value <= 1 && hold <= HOLD_MAX
    && (value == 1 <==> owner.Nobody?) && (hold == 0 <==> owner.Nobody?)
    && (owner.Nobody? ==> list == [] && original == NO_PRIORITY)
  }

  /** One more take by the owner, in the 8 bits of the counter: value, owner and hold still agree if and only if the
      counter was not full. */
  lemma HoldWraps(value: nat, owner: Owner, original: nat, hold: nat, list: seq<Tid>)
    requires Coherent(value, owner, original, hold, list) && owner.Is?
    ensures Coherent(value, owner, original, (hold + 1) % (HOLD_MAX + 1), list) <==> hold < HOLD_MAX
  {
  }

  /** Only the owner's priority differs from the thread's own, upwards, and the mutex remembers it. */
  ghost predicate Boosted(owner: Owner, original: nat, prio: map<Tid, nat>, base: map<Tid, nat>) {
    && prio.Keys == base.Keys
    && (forall t :: t in base && owner != Is(t) ==> prio[t] == base[t])
    && (owner.Is? ==> owner.t in base && original == base[owner.t] && prio[owner.t] <= base[owner.t])
  }

  ghost predicate Waiting(owner: Owner, list: seq<Tid>, prio: map<Tid, nat>) {
    Distinct(list) && Known(list, prio) && forall t :: t in list ==> owner != Is(t)
  }

  // The owner is at least as urgent as every waiter
  ghost predicate Bounded(owner: Owner, list: seq<Tid>, prio: map<Tid, nat>) {
    owner.Is? && owner.t in prio ==> forall t :: t in list && t in prio ==> prio[owner.t] <= prio[t]
  }

  // Errors of threads that wait, that were handed the mutex, or that timed out
  ghost predicate Reruns(owner: Owner, hold: nat, list: seq<Tid>, granted: set<Tid>, failed: set<Tid>,
      error: map<Tid, Err>) {
    && (forall t :: t in list || t in granted ==> t in error && error[t] == EOK)
    && (forall t :: t in failed ==> t in error && error[t] != EOK && t !in list && owner != Is(t))
    && (forall t :: t in granted ==> owner == Is(t) && hold == 1)
  }

  lemma BoostOwner(owner: Owner, original: nat, prio: map<Tid, nat>, base: map<Tid, nat>, list: seq<Tid>, p: nat)
    requires Boosted(owner, original, prio, base) && owner.Is? && p < prio[owner.t] && Waiting(owner, list, prio)
    ensures var prio' := prio[owner.t := p];
            && Boosted(owner, original, prio', base) && Waiting(owner, list, prio')
            && (Sorted0(list, prio) ==> Sorted0(list, prio'))
            && (Bounded(owner, list, prio) ==> Bounded(owner, list, prio'))
  {
  }

  lemma JoinWaiters(owner: Owner, list: seq<Tid>, list': seq<Tid>, k: nat, t: Tid, prio: map<Tid, nat>)
    requires Waiting(owner, list, prio) && InsertedAt(list, list', k, t) && t in prio && t !in list && owner != Is(t)
    ensures Waiting(owner, list', prio)
    ensures Bounded(owner, list', prio) <==>
              Bounded(owner, list, prio) && (owner.Is? && owner.t in prio ==> prio[owner.t] <= prio[t])
  {
    InsertedDistinct(list, list', k, t);
  }

  /** Handing the mutex to the first waiter leaves a bounded owner exactly when no other waiter is more
      urgent than the first. In a priority list that always holds. */
  lemma HandOver(owner: Owner, list: seq<Tid>, prio: map<Tid, nat>)
    requires Waiting(owner, list, prio) && list != []
    ensures Waiting(Is(list[0]), list[1..], prio)
    ensures Bounded(Is(list[0]), list[1..], prio) <==> forall i :: 0 < i < |list| ==> prio[list[0]] <= prio[list[i]]
    ensures Sorted(list, prio) ==> Bounded(Is(list[0]), list[1..], prio) && Sorted(list[1..], prio)
  {
    DistinctTail(list);
    assert forall i :: 0 < i < |list| ==> list[i] in list[1..];
  }

  /** In arrival order the bound can break: a thread of priority 9 is handed the mutex in front of one of
      priority 3. */
  lemma FifoHandOver()
    ensures var prio := map[1 := 9, 2 := 3, 7 := 3];
            && Bounded(Is(7), [1, 2], prio) && !Bounded(Is(1), [2], prio)
  {
    assert 2 in [2];
  }

  class Mutex {
    const flag: Flag
    var value: nat
    var owner: Owner
    var original: nat
    var hold: nat
    var suspended: seq<Tid>
    var prio: map<Tid, nat>       // thread->current_priority
    var error: map<Tid, Err>
    ghost var base: map<Tid, nat> // the priorities the threads have of their own
    ghost var granted: set<Tid>   // handed the mutex and not re-run yet
    ghost var failed: set<Tid>    // timed out and not re-run yet

    ghost predicate Valid()
      reads this
    {
      && Coherent(value, owner, original, hold, suspended)
      && Boosted(owner, original, prio, base)
      && Waiting(owner, suspended, prio)
      && (flag == Prio ==> Sorted0(suspended, prio))
      && Reruns(owner, hold, suspended, granted, failed, error)
      && failed <= prio.Keys
    }

    ghost predicate OwnerBounded()
      reads this
    {
      Bounded(owner, suspended, prio)
    }

    /** What holds between any two steps: value, owner and hold agree, only an owned mutex has waiters, only its
        owner runs above its own priority, and a thread that was handed the mutex owns it. */
    lemma ValidMeans()
      requires Valid()
      ensures value == 1 <==> owner == Nobody
      ensures hold == 0 <==> owner == Nobody
      ensures suspended != [] ==> owner.Is? && value == 0 && hold > 0
      ensures forall t :: t in base && t in prio ==> prio[t] <= base[t] && (owner != Is(t) ==> prio[t] == base[t])
      ensures forall t :: t in granted ==> owner == Is(t) && hold == 1
      ensures OwnerBounded() && owner.Is? ==> forall t :: t in suspended && t in prio && owner.t in prio ==>
          prio[owner.t] <= prio[t]
    {
    }

    // The thread is running: not waiting here and not just woken up
    ghost predicate Runs(t: Tid)
      reads this
    {
      t in prio && t !in suspended && t !in granted && t !in failed
    }

    constructor (f: Flag, p: map<Tid, nat>)
      ensures Valid() && OwnerBounded() && owner == Nobody && suspended == [] && prio == base == p && flag == f
      ensures hold == 0 && granted == failed == {}
    {
      flag, value, owner, original, hold := f, 1, Nobody, NO_PRIORITY, 0;
      suspended, prio, error := [], p, map[];
      base, granted, failed := p, {}, {};
    }

    /** rt_mutex_take up to the call of the scheduler. The counter of nested takes wraps from 255 to 0, and then, only
        then, the mutex does not agree with itself any more. */
    method Take(t: Tid, time: int) returns (done: bool, r: Err)
      requires Valid() && Runs(t)
      modifies this
      ensures Valid() <==> old(!(owner == Is(t) && hold == HOLD_MAX))
      ensures base == old(base) && granted == old(granted) && failed == old(failed)
      ensures old(OwnerBounded()) ==> OwnerBounded()
      ensures done && r == EOK <==> old(owner) in {Nobody, Is(t)}
      ensures done && r == EOK ==>
          owner == Is(t) && hold == (old(hold) + 1) % (HOLD_MAX + 1) && prio == old(prio) && suspended == old(suspended)
      ensures !(done && r == EOK) ==> owner == old(owner) && hold == old(hold) && (done <==> time == 0)
      ensures done && r != EOK ==> r == ETIMEOUT && prio == old(prio) && suspended == old(suspended)
      ensures !done ==>
                && owner.Is? && owner.t in old(prio) && prio == Inherited(old(prio), owner.t, t)
                && t in suspended && Joined(old(suspended), suspended, t, flag, prio)
    {
      hide Boosted, Waiting, Bounded, Reruns, Sorted, InsertedAt, Joined, Inherited;
      ErrorElsewhere(owner, hold, suspended, granted, failed, error, t, EOK);
      if owner == Is(t) {
        error := error[t := EOK];
        HoldWraps(value, owner, original, hold, suspended);
        HoldOk(owner, hold, (hold + 1) % (HOLD_MAX + 1), suspended, granted, failed, error, t);
        hold := (hold + 1) % (HOLD_MAX + 1);
        return true, EOK;
      }
      if value > 0 {
        AcquireOk(prio, base, t, suspended, granted, failed, error[t := EOK]);
        error := error[t := EOK];
        value := value - 1;
        owner, original, hold := Is(t), prio[t], hold + 1;
        return true, EOK;
      }
      if time == 0 {
        ErrorElsewhere(owner, hold, suspended, granted, failed, error, t, ETIMEOUT);
        error := error[t := ETIMEOUT];
        return true, ETIMEOUT;
      }
      error := error[t := EOK];
      OwnerKnown(owner, original, prio, base);
      Inherit(t);
      Block(t);
      done, r := false, EOK;
    }

    // The waiter lends its priority to the owner
    method Inherit(t: Tid)
      requires Boosted(owner, original, prio, base) && Waiting(owner, suspended, prio) && owner.Is? && owner.t in prio
      requires t in prio && owner != Is(t) && t !in suspended
      modifies `prio
      ensures Boosted(owner, original, prio, base) && Waiting(owner, suspended, prio)
      ensures owner.t in prio && t in prio && prio[owner.t] <= prio[t]
      ensures owner.t in old(prio) && t in old(prio) && prio == Inherited(old(prio), owner.t, t) &&
          prio.Keys == old(prio).Keys
      ensures old(Sorted0(suspended, prio)) ==> Sorted0(suspended, prio)
      ensures old(Bounded(owner, suspended, prio)) ==> Bounded(owner, suspended, prio)
    {
      if prio[t] < prio[owner.t] {
        BoostOwner(owner, original, prio, base, suspended, prio[t]);
        prio := prio[owner.t := prio[t]];
      }
    }

    method Block(t: Tid)
      requires Waiting(owner, suspended, prio) && t in prio && t !in suspended && owner != Is(t)
      requires flag == Prio ==> Sorted0(suspended, prio)
      requires Reruns(owner, hold, suspended, granted, failed, error) && t !in failed && t !in granted && t in error &&
          error[t] == EOK
      modifies `suspended
      ensures Waiting(owner, suspended, prio) && (flag == Prio ==> Sorted0(suspended, prio))
      ensures Reruns(owner, hold, suspended, granted, failed, error)
      ensures t in suspended && Joined(old(suspended), suspended, t, flag, prio)
      ensures Bounded(owner, suspended, prio) <==>
                Bounded(owner, old(suspended), prio) && (owner.Is? && owner.t in prio ==> prio[owner.t] <= prio[t])
    {
      var list, k := Enqueue(suspended, t, flag, prio);
      JoinWaiters(owner, suspended, list, k, t, prio);
      InsertedDistinct(suspended, list, k, t);
      if flag == Prio {
        InsertedSorted(suspended, list, k, t, prio);
      }
      suspended := list;
    }

    /** What a blocked rt_mutex_take returns: RT_EOK means the thread owns the mutex, once. */
    method Rerun(t: Tid) returns (r: Err)
      requires Valid() && (t in granted || t in failed)
      modifies `granted, `failed
      ensures Valid() && Runs(t) && (r == EOK <==> t in old(granted)) && (r == EOK ==> owner == Is(t) && hold == 1)
      ensures granted == old(granted) - {t} && failed == old(failed) - {t}
    {
      OwnerKnown(owner, original, prio, base);
      r := error[t];
      granted, failed := granted - {t}, failed - {t};
    }

    // rt_thread_timeout of a waiter: a boost it caused stays
    method Timeout(t: Tid)
      requires Valid() && t in suspended
      modifies `suspended, `error, `failed
      ensures Valid() && suspended == Without(old(suspended), t) && failed == old(failed) + {t}
      ensures old(OwnerBounded()) ==> OwnerBounded()
    {
      hide Boosted, Waiting, Bounded, Reruns, Sorted, Without;
      LeaveOk(owner, hold, suspended, prio, t, granted, failed, error);
      error := error[t := ETIMEOUT];
      suspended := Without(suspended, t);
      failed := failed + {t};
    }

    /** rt_mutex_release: on the last one the owner gets its own priority back and the first waiter, if
        any, is the new owner. */
    method Release(t: Tid) returns (r: Err)
      requires Valid() && Runs(t)
      modifies this
      ensures Valid() && base == old(base) && failed == old(failed)
      ensures r == if old(owner) == Is(t) then EOK else ERROR
      ensures r == ERROR ==>
          owner == old(owner) && hold == old(hold) && suspended == old(suspended) && prio == old(prio)
      ensures r == EOK && old(hold) > 1 ==>
          owner == Is(t) && hold == old(hold) - 1 && suspended == old(suspended) && prio == old(prio)
      ensures r == EOK && old(hold) == 1 ==>
                && t in base && prio == old(prio)[t := base[t]]
                && owner == (if old(suspended) == [] then Nobody else Is(old(suspended)[0]))
                && (owner.Is? ==> hold == 1 && suspended == old(suspended)[1..] && granted == old(granted) + {owner.t})
      ensures !(r == EOK && old(hold) == 1) ==> granted == old(granted) && (old(OwnerBounded()) ==> OwnerBounded())
      ensures r == EOK && old(hold) == 1 ==>
                (OwnerBounded() <==> forall i :: 0 < i < |old(suspended)| ==>
                    MoreUrgent(old(base), old(suspended)[0], old(suspended)[i]))
      ensures flag == Prio && old(OwnerBounded()) ==> OwnerBounded()
    {
      hide Boosted, Waiting, Bounded, Reruns, Sorted;
      if owner != Is(t) {
        ErrorElsewhere(owner, hold, suspended, granted, failed, error, t, ERROR);
        error := error[t := ERROR];
        return ERROR;
      }
      r := EOK;
      if hold > 1 {
        HoldOk(owner, hold, hold - 1, suspended, granted, failed, error, t);
        hold := hold - 1;
      } else {
        LastRelease(t);
      }
    }

    // hold reached 0
    method LastRelease(t: Tid)
      requires Valid() && Runs(t) && owner == Is(t) && hold == 1
      modifies this
      ensures Valid() && base == old(base) && failed == old(failed)
      ensures t in base && prio == old(prio)[t := base[t]]
      ensures owner == (if old(suspended) == [] then Nobody else Is(old(suspended)[0]))
      ensures owner.Is? ==> hold == 1 && suspended == old(suspended)[1..] && granted == old(granted) + {owner.t}
      ensures OwnerBounded() <==> forall i :: 0 < i < |old(suspended)| ==>
          MoreUrgent(old(base), old(suspended)[0], old(suspended)[i])
      ensures flag == Prio ==> OwnerBounded()
    {
      hide Boosted, Waiting, Bounded, Reruns, Sorted;
      hold := 0;
      RestoreOk(original, prio, base, t, suspended);
      if original != prio[t] {
        prio := prio[t := original];
      }
      if suspended != [] {
        GrantOk(suspended, prio, base, granted, failed, error, t);
        var next := suspended[0];
        owner, original, hold := Is(next), prio[next], 1;
        suspended, granted := suspended[1..], granted + {next};
      } else {
        FreeOk(prio, base, granted, failed, error, t);
        value, owner, original := 1, Nobody, NO_PRIORITY;
      }
    }
  }

  // Thread o was given the priority of t, if that is more urgent
  ghost function Inherited(prio: map<Tid, nat>, o: Tid, t: Tid): (r: map<Tid, nat>)
    requires o in prio && t in prio
    ensures r.Keys == prio.Keys && (forall x :: x in prio && x != o ==> r[x] == prio[x])
    ensures r[o] <= prio[o] && r[o] <= prio[t] && r[o] in {prio[o], prio[t]}
  {
    if prio[t] < prio[o] then prio[o := prio[t]] else prio
  }

  ghost predicate MoreUrgent(base: map<Tid, nat>, t: Tid, u: Tid) {
    t in base && u in base ==> base[t] <= base[u]
  }

  ghost predicate Sorted0(list: seq<Tid>, prio: map<Tid, nat>) {
    Known(list, prio) && Sorted(list, prio)
  }

  lemma OwnerKnown(owner: Owner, original: nat, prio: map<Tid, nat>, base: map<Tid, nat>)
    requires Boosted(owner, original, prio, base)
    ensures owner.Is? ==> owner.t in prio
  {
  }

  // A waiter left
  lemma LeaveOk(owner: Owner, hold: nat, list: seq<Tid>, prio: map<Tid, nat>, t: Tid, granted: set<Tid>,
      failed: set<Tid>, error: map<Tid, Err>)
    requires Waiting(owner, list, prio) && t in list && Reruns(owner, hold, list, granted, failed, error)
    ensures Waiting(owner, Without(list, t), prio)
    ensures Bounded(owner, list, prio) ==> Bounded(owner, Without(list, t), prio)
    ensures Sorted0(list, prio) ==> Sorted0(Without(list, t), prio)
    ensures Reruns(owner, hold, Without(list, t), granted, failed + {t}, error[t := ETIMEOUT])
    ensures t in prio
  {
    hide Without, Sorted, Distinct;
    WithoutMembers(list, t);
    if Sorted0(list, prio) {
      WithoutSorted(list, t, prio);
    }
  }

  lemma ErrorElsewhere(owner: Owner, hold: nat, list: seq<Tid>, granted: set<Tid>, failed: set<Tid>,
      error: map<Tid, Err>, t: Tid, e: Err)
    requires Reruns(owner, hold, list, granted, failed, error) && t !in list && t !in granted && t !in failed
    ensures Reruns(owner, hold, list, granted, failed, error[t := e])
  {
  }

  lemma HoldOk(owner: Owner, hold: nat, hold': nat, list: seq<Tid>, granted: set<Tid>, failed: set<Tid>,
      error: map<Tid, Err>, t: Tid)
    requires owner == Is(t) && t !in granted
    requires Reruns(owner, hold, list, granted, failed, error)
    ensures granted == {} && Reruns(owner, hold', list, granted, failed, error)
  {
  }

  lemma AcquireOk(prio: map<Tid, nat>, base: map<Tid, nat>, t: Tid, list: seq<Tid>, granted: set<Tid>, failed: set<Tid>,
      error: map<Tid, Err>)
    requires Boosted(Nobody, NO_PRIORITY, prio, base) && t in prio && list == [] && t !in failed
    requires Reruns(Nobody, 0, list, granted, failed, error)
    ensures Boosted(Is(t), prio[t], prio, base) && Waiting(Is(t), list, prio) && Bounded(Is(t), list, prio)
    ensures Reruns(Is(t), 1, list, granted, failed, error)
  {
  }

  lemma RestoreOk(original: nat, prio: map<Tid, nat>, base: map<Tid, nat>, t: Tid, list: seq<Tid>)
    requires Boosted(Is(t), original, prio, base) && Waiting(Is(t), list, prio)
    ensures t in prio && prio[t := original] == base && Waiting(Is(t), list, base)
    ensures original == prio[t] ==> prio == base
    ensures Sorted0(list, prio) ==> Sorted0(list, base)
  {
    assert prio[t := original] == base;
  }

  lemma GrantOk(list: seq<Tid>, prio: map<Tid, nat>, base: map<Tid, nat>, granted: set<Tid>, failed: set<Tid>,
      error: map<Tid, Err>, t: Tid)
    requires prio == base && Waiting(Is(t), list, prio) && list != [] && t !in granted
    requires Reruns(Is(t), 1, list, granted, failed, error)
    ensures list[0] in prio && Boosted(Is(list[0]), prio[list[0]], prio, base) && Waiting(Is(list[0]), list[1..], prio)
    ensures Reruns(Is(list[0]), 1, list[1..], granted + {list[0]}, failed, error)
    ensures Bounded(Is(list[0]), list[1..], prio) <==> forall i :: 0 < i < |list| ==> MoreUrgent(base, list[0], list[i])
    ensures Sorted0(list, prio) ==> Bounded(Is(list[0]), list[1..], prio) && Sorted0(list[1..], prio)
  {
    HandOver(Is(t), list, prio);
    DistinctTail(list);
  }

  lemma FreeOk(prio: map<Tid, nat>, base: map<Tid, nat>, granted: set<Tid>, failed: set<Tid>, error: map<Tid, Err>,
      t: Tid)
    requires prio == base && t !in granted && Reruns(Is(t), 1, [], granted, failed, error)
    ensures Boosted(Nobody, NO_PRIORITY, prio, base) && Waiting(Nobody, [], prio) && Bounded(Nobody, [], prio)
    ensures Reruns(Nobody, 0, [], granted, failed, error)
  {
  }

  /** 256 takes by one thread leave a mutex that it owns with a hold of 0. */
  method TakesWrap(f: Flag, t: Tid, priority: nat) returns (m: Mutex)
    ensures fresh(m) && m.owner == Is(t) && m.hold == 0 && !m.Valid()
  {
    m := new Mutex(f, map[t := priority]);
    hide Coherent, Boosted, Waiting, Reruns, Bounded, Sorted, Joined, Inherited;
    for i := 0 to HOLD_MAX + 1
      invariant fresh(m) && (m.Valid() <==> i <= HOLD_MAX) && m.hold == i % (HOLD_MAX + 1)
      invariant m.owner == (if i == 0 then Nobody else Is(t)) && m.Runs(t)
    {
      var done, r := m.Take(t, 0);
    }
  }
}
