/** Semaphores of rt-thread/src/ipc.c:313-518. A method is one region with interrupts disabled; a blocked
    rt_sem_take is `Take`, then a wake-up by another method, then `Rerun` once the thread runs again. */
module Semaphore {
  import opened Sequences
  import opened WaitList

  const WRAP: nat := 0x1_0000    // rt_uint16_t value

  class Semaphore {
    const flag: Flag
    var value: nat
    var suspended: seq<Tid>
    var error: map<Tid, Err>
    // Resumed and not re-run yet: by a release, and by a timeout or a reset
    ghost var granted: set<Tid>
    ghost var failed: set<Tid>
    // Since the value was last set: releases, successful takes, and wrap-arounds of the value
    ghost var initial: nat
    ghost var released: nat
    ghost var taken: nat
    ghost var wraps: nat

    ghost predicate Valid()
      reads this
    {
      && value < WRAP
      && (value > 0 ==> suspended == [])
      && Distinct(suspended)
      && Apart(suspended, granted, failed)
      && (forall t :: t in granted || t in suspended ==> t in error && error[t] == EOK)
      && (forall t :: t in failed ==> t in error && error[t] != EOK)
      && initial + released == value + taken + WRAP * wraps
    }

    // A thread is in one place at a time
    ghost predicate Apart(list: seq<Tid>, g: set<Tid>, f: set<Tid>) {
      g !! f && forall t :: t in list ==> t !in g && t !in f
    }

    // Not inside a call on this semaphore
    ghost predicate Outside(t: Tid)
      reads this
    {
      t !in suspended && t !in granted && t !in failed
    }

    constructor (v: nat, f: Flag)
      requires v < WRAP
      ensures Valid() && value == v && suspended == [] && granted == {} && failed == {} && flag == f
      ensures initial == v && released == taken == wraps == 0
    {
      value, flag, suspended, error := v, f, [], map[];
      granted, failed, initial, released, taken, wraps := {}, {}, v, 0, 0, 0;
    }

    /** rt_sem_take up to the call of the scheduler. */
    method Take(t: Tid, time: int, prio: map<Tid, nat>) returns (done: bool, r: Err)
      requires Valid() && Outside(t) && t in prio && Known(suspended, prio)
      modifies this
      ensures Valid() && granted == old(granted) && failed == old(failed)
      ensures done <==> old(value) > 0 || time == 0
      ensures done ==> (r == EOK <==> old(value) > 0) && suspended == old(suspended)
      ensures done && r == EOK ==> value == old(value) - 1 && taken == old(taken) + 1
      ensures !(done && r == EOK) ==> value == old(value) && taken == old(taken)
      ensures !done ==> Joined(old(suspended), suspended, t, flag, prio)
      ensures released == old(released) && initial == old(initial) && wraps == old(wraps)
    {
      if value > 0 {
        value, taken := value - 1, taken + 1;
        return true, EOK;
      }
      if time == 0 {
        return true, ETIMEOUT;
      }
      error := error[t := EOK];
      ghost var k;
      suspended, k := Enqueue(suspended, t, flag, prio);
      InsertedDistinct(old(suspended), suspended, k, t);
      done, r := false, EOK;
    }

    /** What a blocked rt_sem_take returns: RT_EOK exactly when a release woke the thread. */
    method Rerun(t: Tid) returns (r: Err)
      requires Valid() && (t in granted || t in failed)
      modifies this`granted, this`failed
      ensures Valid() && Outside(t) && (r == EOK <==> t in old(granted))
      ensures granted == old(granted) - {t} && failed == old(failed) - {t}
    {
      r := error[t];
      granted, failed := granted - {t}, failed - {t};
    }

    /** rt_sem_release: hands the token to the first waiter, or counts it. */
    method Release()
      requires Valid()
      modifies this
      ensures Valid() && failed == old(failed) && released == old(released) + 1 && initial == old(initial)
      ensures old(suspended) == [] ==> suspended == [] && granted == old(granted) && taken == old(taken)
      ensures old(suspended) == [] ==> value == (old(value) + 1) % WRAP
      ensures old(suspended) != [] ==> suspended == old(suspended)[1..] && granted == old(granted) + {old(suspended)[0]}
      ensures old(suspended) != [] ==> value == old(value) == 0 && taken == old(taken) + 1
      ensures wraps == old(wraps) <==> old(suspended != [] || value + 1 < WRAP)
    {
      released := released + 1;
      if suspended != [] {
        DistinctTail(suspended);
        granted, taken := granted + {suspended[0]}, taken + 1;
        suspended := suspended[1..];
      } else {
        wraps := wraps + (value + 1) / WRAP;
        value := (value + 1) % WRAP;
      }
    }

    // rt_thread_timeout of a waiter
    method Timeout(t: Tid)
      requires Valid() && t in suspended
      modifies `suspended, `error, `failed
      ensures Valid() && suspended == Without(old(suspended), t) && failed == old(failed) + {t}
    {
      WithoutMembers(suspended, t);
      error := error[t := ETIMEOUT];
      suspended := Without(suspended, t);
      failed := failed + {t};
    }

    /** rt_sem_control(RT_IPC_CMD_RESET): every waiter fails, and the account starts again. */
    method Reset(v: nat)
      requires Valid()
      modifies this
      ensures Valid() && suspended == [] && granted == old(granted) && value == v % WRAP
      ensures failed == old(failed) + (set t | t in old(suspended))
      ensures initial == value && released == taken == wraps == 0
    {
      ghost var waiting := set t | t in suspended;
      while suspended != []
        invariant Valid() && granted == old(granted)
        invariant failed + (set t | t in suspended) == old(failed) + waiting
        decreases |suspended|
      {
        DistinctTail(suspended);
        var t := suspended[0];
        error := error[t := ERROR];
        suspended := suspended[1..];
        failed := failed + {t};
      }
      value := v % WRAP;
      initial, released, taken, wraps := value, 0, 0, 0;
    }

    /** No waiter while a token is there; and as long as the value has not wrapped round, the initial
        tokens and the releases are exactly the value and the successful takes. */
    lemma Account()
      requires Valid()
      ensures value > 0 ==> suspended == []
      ensures initial + released == value + taken <==> wraps == 0
      ensures initial + released < WRAP ==> wraps == 0
    {
    }
  }

  /** 65536 releases that nobody waits for leave a value of 0. */
  method ReleasesWrap(f: Flag) returns (s: Semaphore)
    ensures fresh(s) && s.Valid() && s.value == 0 && s.released == WRAP && s.taken == 0 && s.wraps == 1
  {
    s := new Semaphore(0, f);
    for i := 0 to WRAP
      invariant fresh(s) && s.Valid() && s.suspended == [] && s.value == i % WRAP
      invariant s.released == i && s.taken == 0 && s.initial == 0
    {
      s.Release();
    }
  }
}
