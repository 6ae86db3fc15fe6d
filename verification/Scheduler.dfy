/** The SMP scheduler and its locks: rt-thread/src/scheduler.c:126-160, 226-385, 547-881, rt-thread/src/cpu.c:20-185 and
    rt-thread/src/thread.c:283-322, 602-829. `c` is the CPU that executes a method. Work between rt_cpus_lock and
    rt_cpus_unlock is one step; a context switch is the step that sets current_thread. */
module Scheduler {
  import opened Bits
  import opened SchedulerRep
  import opened Sequences

  datatype Err = EOK | ERROR

  datatype Cpu = Cpu(prio: nat, irqNest: nat, irqSwitch: bool)

  class Scheduler {
    const n: nat                  // RT_CPUS_NR
    var threads: Threads
    var queues: seq<Queue>        // queue n: rt_thread_priority_table and its group
    var current: seq<Current>     // pcpu->current_thread
    var pcpu: seq<Cpu>
    var lock: int                 // the CPU that holds _cpus_lock
    var critical: Current         // the thread that holds _rt_critical_lock
    ghost var ready: Spots
    var waits: Waits              // the suspend lists of IPC objects
    ghost var sleeping: Sleeping

    ghost predicate Valid()
      reads this
    {
      World(threads, queues, current, ready, n, lock, critical) && |pcpu| == n && WaitsOk(threads, waits, sleeping)
    }

    // t is the thread that c runs
    ghost predicate On(c: nat, t: Tid)
      reads this
    {
      c < n && c < |current| && current[c] == Is(t) && t in threads
    }

    /** rt_system_scheduler_init. */
    constructor (cpus: nat)
      requires 0 < cpus < DETACHED
      ensures Valid() && threads == map[] && ready == map[] && n == cpus && lock == FREE && waits == map[] &&
          sleeping == map[]
      ensures forall c :: 0 <= c < n ==> current[c] == Nobody
    {
      n := cpus;
      threads := map[];
      queues := seq(cpus + 1, _ => Queue(seq(PRIORITIES, _ => []), 0));
      current := seq(cpus, _ => Nobody);
      pcpu := seq(cpus, _ => Cpu(PRIORITIES - 1, 0, false));
      lock, critical, ready := FREE, Nobody, map[];
      waits, sleeping := map[], map[];
      new;
      EmptyQueues(queues, n);
    }

    /** rt_thread_init: the thread is in no queue. */
    method Create(t: Tid, priority: nat)
      requires Valid() && t !in threads && critical != Is(t) && priority < PRIORITIES
      modifies `threads
      ensures Valid() && threads == old(threads)[t := Thread(Init, false, priority, priority, 0, n, DETACHED, 0, 0, 0)]
    {
      hide WaitsOk, World;
      Created(threads, queues, current, ready, n, lock, critical, t, priority);
      WaitsStay(threads, waits, sleeping, t, Thread(Init, false, priority, priority, 0, n, DETACHED, 0, 0, 0));
      threads := threads[t := Thread(Init, false, priority, priority, 0, n, DETACHED, 0, 0, 0)];
    }

    // The argument is cut to 8 bits first; numbers beyond the last CPU mean any CPU
    function Bound(cpu: nat): (b: nat)
      ensures b <= n && (b < n ==> b == cpu % 256) && (b == n ==> cpu % 256 >= n)
    {
      if cpu % 256 > n then n else cpu % 256
    }

    /** rt_thread_control(RT_THREAD_CTRL_BIND_CPU): only before the start. */
    method BindCpu(t: Tid, cpu: nat) returns (r: Err)
      requires Valid() && t in threads
      modifies `threads
      ensures Valid() && (r == EOK <==> old(threads)[t].stat == Init)
      ensures threads == if r == EOK then old(threads)[t := old(threads)[t].(bind := Bound(cpu))] else old(threads)
    {
      hide WaitsOk, World;
      if threads[t].stat != Init {
        return ERROR;
      }
      ThreadFacts(threads, queues, current, ready, n, lock, critical, t);
      var th := threads[t].(bind := Bound(cpu));
      Alter(threads, queues, current, ready, n, lock, critical, t, th);
      WaitsStay(threads, waits, sleeping, t, th);
      threads := threads[t := th];
      r := EOK;
    }

    // ---- ready queues ----

    /** rt_schedule_insert_thread: a thread that is still on a CPU runs on; another becomes ready. */
    method InsertThread(t: Tid)
      requires Valid() && t in threads && threads[t].stat == Suspend && t !in sleeping
      modifies `threads, `queues, `ready
      ensures Valid() && t in threads
      ensures threads == old(threads)[t := old(threads)[t].(stat := if Attached(old(threads)[t]) then Running
          else Ready)]
      ensures ready == if Attached(old(threads)[t]) then old(ready)
          else old(ready)[t := Spot(threads[t].bind, threads[t].prio)]
      ensures if Attached(old(threads)[t]) then queues == old(queues) else Appended(old(queues), queues, t, threads[t])
    {
      hide WaitsOk, World, Appended, Enqueue;
      var th := threads[t];
      ThreadFacts(threads, queues, current, ready, n, lock, critical, t);
      if th.oncpu != DETACHED {
        Alter(threads, queues, current, ready, n, lock, critical, t, th.(stat := Running));
        WaitsStay(threads, waits, sleeping, t, th.(stat := Running));
        threads := threads[t := th.(stat := Running)];
      } else {
        Wake(threads, queues, current, ready, n, lock, critical, t);
        EnqueueAppends(queues, t, th.(stat := Ready));
        WaitsStay(threads, waits, sleeping, t, th.(stat := Ready));
        threads := threads[t := th.(stat := Ready)];
        queues := queues[th.bind := Enqueue(queues[th.bind], t, th.prio, th.mask)];
        ready := ready[t := Spot(th.bind, th.prio)];
      }
    }

    /** rt_thread_suspend: of a ready thread, or of the thread that calls it. */
    method SuspendThread(c: nat, t: Tid) returns (r: Err)
      requires Valid() && t in threads && (threads[t].stat == Running ==> On(c, t))
      modifies `threads, `queues, `ready
      ensures Valid() && (r == EOK <==> old(threads)[t].stat in {Ready, Running})
      ensures threads == if r == EOK then old(threads)[t := old(threads)[t].(stat := Suspend)] else old(threads)
      ensures ready == if r == EOK then old(ready) - {t} else old(ready)
      ensures if r == EOK then Dropped(old(queues), queues, t, old(threads)[t]) else queues == old(queues)
      ensures old(threads)[t].stat == Running ==> queues == old(queues)
    {
      hide WaitsOk, World, Dropped, Dequeue;
      var th := threads[t];
      if th.stat != Ready && th.stat != Running {
        return ERROR;
      }
      ThreadFacts(threads, queues, current, ready, n, lock, critical, t);
      TablesOf(threads, queues, current, ready, n, lock, critical, t);
      DequeueDrops(queues, t, th);
      var q := Dequeue(queues[th.bind], t, th.prio, th.mask);
      if th.stat == Ready {
        Rest(threads, queues, current, ready, n, lock, critical, t);
      } else {
        NotQueuedWorld(threads, queues, current, ready, n, lock, critical, t);
        Alter(threads, queues, current, ready, n, lock, critical, t, th.(stat := Suspend));
        assert ready - {t} == ready;
      }
      queues := queues[th.bind := q];
      WaitsStay(threads, waits, sleeping, t, th.(stat := Suspend));
      threads := threads[t := th.(stat := Suspend)];
      ready := ready - {t};
      r := EOK;
    }

    // rt_ipc_object_init: the list of a new object
    method InitList(l: nat)
      requires Valid() && l !in waits
      modifies `waits
      ensures Valid() && waits == old(waits)[l := []]
    {
      hide World;
      assert WaitListOk([], l, sleeping);
      waits := waits[l := []];
    }

    /** rt_ipc_list_suspend of the thread that calls it, at the place the order of the list gives it. */
    method SuspendOn(c: nat, t: Tid, l: nat, k: nat)
      requires Valid() && On(c, t) && threads[t].stat == Running && l in waits && k <= |waits[l]|
      modifies `threads, `queues, `ready, `waits, `sleeping
      ensures Valid() && threads == old(threads)[t := old(threads)[t].(stat := Suspend)] && ready == old(ready) - {t}
      ensures t !in old(sleeping) && sleeping == old(sleeping)[t := l]
      ensures waits == old(waits)[l := old(waits)[l][..k] + [t] + old(waits)[l][k..]]
      ensures queues == old(queues)
    {
      hide WaitsOk, World, Dropped;
      AwakeInNone(threads, waits, sleeping, t);
      var r := SuspendThread(c, t);
      JoinsList(threads, waits, sleeping, t, l, k);
      waits := waits[l := waits[l][..k] + [t] + waits[l][k..]];
      sleeping := sleeping[t := l];
    }

    /** rt_thread_resume, and rt_thread_timeout but for the error it sets: out of its wait list, if it is in one. */
    method ResumeThread(t: Tid) returns (r: Err)
      requires Valid() && t in threads
      modifies `threads, `queues, `ready, `waits, `sleeping
      ensures Valid() && (r == EOK <==> old(threads)[t].stat == Suspend)
      ensures threads == if r == EOK then old(threads)[t :=
          old(threads)[t].(stat := if Attached(old(threads)[t]) then Running else Ready)] else old(threads)
      ensures waits == if r == EOK then TakenOut(old(waits), t) else old(waits)
      ensures sleeping == if r == EOK then old(sleeping) - {t} else old(sleeping)
      ensures if r == EOK && !Attached(old(threads)[t]) then
                Appended(old(queues), queues, t, threads[t]) &&
                    ready == old(ready)[t := Spot(threads[t].bind, threads[t].prio)]
              else queues == old(queues) && ready == old(ready)
    {
      hide WaitsOk, World, TakenOut, Appended;
      if threads[t].stat != Suspend {
        return ERROR;
      }
      LeavesList(threads, waits, sleeping, t);
      RemoveFromLists(t);
      InsertThread(t);
      r := EOK;
    }

    // The thread leaves the list it is in
    method RemoveFromLists(t: Tid)
      modifies `waits, `sleeping
      ensures waits == TakenOut(old(waits), t) && sleeping == old(sleeping) - {t}
    {
      waits := map l | l in waits :: Without(waits[l], t);
      sleeping := sleeping - {t};
    }

    /** The same for a thread of this state. */
    lemma OnePlaceNow(t: Tid)
      requires Valid() && t in threads && threads[t].stat != Init && threads[t].stat != Close
      ensures forall c, d :: 0 <= c < |current| && 0 <= d < |current| && c < n && d < n ==>
                current[c] == Is(t) && current[d] == Is(t) ==> c == d
      ensures forall l, m :: l in waits && m in waits && t in waits[l] && t in waits[m] ==> l == m
      ensures forall l :: l in waits && t in waits[l] ==> threads[t].stat == Suspend && t !in ready
    {
      OnePlace(threads, queues, current, ready, n, waits, sleeping, t);
    }

    /** rt_thread_startup up to the call of the scheduler. */
    method Startup(t: Tid)
      requires Valid() && t in threads && threads[t].stat == Init
      modifies `threads, `queues, `ready
      ensures Valid() && t in threads
      ensures threads == old(threads)[t := old(threads)[t].(prio := old(threads)[t].initial,
          mask := Mask(threads[t].prio), stat := Ready, yielding := false)]
      ensures threads[t].prio < PRIORITIES && t in ready && ready[t] == Spot(threads[t].bind, threads[t].initial)
      ensures Appended(old(queues), queues, t, threads[t])
    {
      hide WaitsOk, World, Mask, Appended;
      AwakeInNone(threads, waits, sleeping, t);
      ThreadFacts(threads, queues, current, ready, n, lock, critical, t);
      var th := threads[t].(prio := threads[t].initial, mask := Mask(threads[t].initial), stat := Suspend,
          yielding := false);
      Alter(threads, queues, current, ready, n, lock, critical, t, th);
      WaitsStay(threads, waits, sleeping, t, th);
      threads := threads[t := th];
      InsertThread(t);
    }

    /** rt_thread_control(RT_THREAD_CTRL_CHANGE_PRIORITY): a ready thread changes its list. */
    method ChangePriority(t: Tid, p: nat)
      requires Valid() && t in threads && p < PRIORITIES
      modifies `threads, `queues, `ready
      ensures Valid() && threads == old(threads)[t := old(threads)[t].(prio := p, mask := Mask(p))]
      ensures ready == if old(threads)[t].stat == Ready then old(ready)[t := Spot(old(threads)[t].bind, p)]
          else old(ready)
      ensures if old(threads)[t].stat == Ready
                then exists qs :: Dropped(old(queues), qs, t, old(threads)[t]) && Appended(qs, queues, t, threads[t])
                else queues == old(queues)
    {
      hide WaitsOk, World, Mask, Appended, Dropped, Enqueue, Dequeue;
      var th := threads[t];
      ThreadFacts(threads, queues, current, ready, n, lock, critical, t);
      if th.stat == Ready {
        Rest(threads, queues, current, ready, n, lock, critical, t);
        var qs := queues[th.bind := Dequeue(queues[th.bind], t, th.prio, th.mask)];
        var asleep := th.(stat := Suspend);
        var moved := asleep.(prio := p, mask := Mask(p));
        Alter(threads[t := asleep], qs, current, ready - {t}, n, lock, critical, t, moved);
        assert threads[t := asleep][t := moved] == threads[t := moved];
        Wake(threads[t := moved], qs, current, ready - {t}, n, lock, critical, t);
        assert threads[t := moved][t := th.(prio := p, mask := Mask(p))] ==
            threads[t := th.(prio := p, mask := Mask(p))];
        assert (ready - {t})[t := Spot(th.bind, p)] == ready[t := Spot(th.bind, p)];
        queues := qs[th.bind := Enqueue(qs[th.bind], t, p, Mask(p))];
        ready := ready[t := Spot(th.bind, p)];
        DequeueDrops(old(queues), t, th);
        EnqueueAppends(qs, t, th.(prio := p, mask := Mask(p)));
        assert Dropped(old(queues), qs, t, th) && Appended(qs, queues, t, th.(prio := p, mask := Mask(p)));
      } else {
        Alter(threads, queues, current, ready, n, lock, critical, t, th.(prio := p, mask := Mask(p)));
      }
      WaitsStay(threads, waits, sleeping, t, th.(prio := p, mask := Mask(p)));
      threads := threads[t := th.(prio := p, mask := Mask(p))];
    }

    /** rt_thread_exit up to the call of the scheduler. */
    method Exit(c: nat, t: Tid)
      requires Valid() && On(c, t) && threads[t].stat == Running
      modifies `threads, `queues
      ensures Valid() && threads == old(threads)[t := old(threads)[t].(stat := Close, yielding := false)]
      ensures queues == old(queues)
    {
      hide WaitsOk, World;
      var th := threads[t];
      ThreadFacts(threads, queues, current, ready, n, lock, critical, t);
      NotQueuedWorld(threads, queues, current, ready, n, lock, critical, t);
      queues := queues[th.bind := Dequeue(queues[th.bind], t, th.prio, th.mask)];
      Alter(threads, queues, current, ready, n, lock, critical, t, th.(stat := Close, yielding := false));
      WaitsStay(threads, waits, sleeping, t, th.(stat := Close, yielding := false));
      threads := threads[t := th.(stat := Close, yielding := false)];
    }

    // The tick that ends the time slice marks the thread as yielding
    method EndSlice(c: nat, t: Tid)
      requires Valid() && On(c, t)
      modifies `threads
      ensures Valid() && threads == old(threads)[t := old(threads)[t].(yielding := true)]
    {
      hide WaitsOk, World;
      ThreadFacts(threads, queues, current, ready, n, lock, critical, t);
      OnIsNotReady(threads, queues, current, ready, n, lock, critical, c, t);
      Alter(threads, queues, current, ready, n, lock, critical, t, threads[t].(yielding := true));
      WaitsStay(threads, waits, sleeping, t, threads[t].(yielding := true));
      threads := threads[t := threads[t].(yielding := true)];
    }

    // ---- selection ----

    /** _get_highest_priority_thread: a most urgent thread of the global table and the CPU's own, the own
        one on a tie. */
    method Highest(c: nat) returns (t: Tid, p: nat)
      requires Valid() && c < n
      requires |queues| == n + 1 && (queues[n].group != 0 || queues[c].group != 0)
      ensures Best(ready, n, c, t) && ready[t].prio == p < PRIORITIES
      ensures ready[t].bind == n ==> forall x :: x in ready && ready[x].bind == c ==> p < ready[x].prio
      ensures Leads(queues, ready, t)
    {
      hide WaitsOk, World, Ffs, Foremost, Best;
      FirstTwo(threads, queues, current, ready, n, lock, critical, c);
      var global, own := Ffs(queues[n].group), Ffs(queues[c].group);
      Choose(queues[n], queues[c], ready, n, c, global, own);
      // __rt_ffs() - 1 is unsigned: without a bit it is larger than any priority
      if global != 0 && (own == 0 || global < own) {
        p := global - 1;
        t := queues[n].lists[p][0];
      } else {
        p := own - 1;
        t := queues[c].lists[p][0];
      }
      BestMeans(ready, n, c, t);
    }

    // ---- locks ----

    /** rt_cpus_lock: the outermost one waits for _cpus_lock. */
    method CpusLock(c: nat)
      requires Valid() && c < n && (current[c].Is? ==> lock == FREE || lock == c)
      modifies `threads, `lock
      ensures Valid() && c < |current|
      ensures !current[c].Is? ==> threads == old(threads) && lock == old(lock)
      ensures current[c].Is? ==>
                var t := current[c].t;
                && t in old(threads) && lock == c && threads == old(threads)[t := Locked(old(threads)[t])]
    {
      hide WaitsOk, World;
      CurrentKnown(threads, queues, current, ready, n, lock, critical, c);
      if current[c].Is? {
        var t := current[c].t;
        var th := threads[t];
        LockMore(threads, queues, current, ready, n, lock, critical, c, t);
        if th.cpus == 0 {
          lock := c;
        }
        WaitsStay(threads, waits, sleeping, t, Locked(th));
        threads := threads[t := Locked(th)];
      }
    }

    /** rt_cpus_unlock: the outermost one releases _cpus_lock. */
    method CpusUnlock(c: nat)
      requires Valid() && c < n && (current[c].Is? ==> current[c].t in threads && threads[current[c].t].cpus > 0)
      modifies `threads, `lock
      ensures Valid() && c < |current|
      ensures !current[c].Is? ==> threads == old(threads) && lock == old(lock)
      ensures current[c].Is? ==>
                var t := current[c].t;
                && t in old(threads) && threads == old(threads)[t := Unlocked(old(threads)[t])]
                && lock == if old(threads)[t].cpus == 1 then FREE else old(lock)
    {
      hide WaitsOk, World;
      CurrentKnown(threads, queues, current, ready, n, lock, critical, c);
      if current[c].Is? {
        var t := current[c].t;
        var th := threads[t];
        LockLess(threads, queues, current, ready, n, lock, critical, c, t);
        if th.cpus == 1 {
          lock := FREE;
        }
        WaitsStay(threads, waits, sleeping, t, Unlocked(th));
        threads := threads[t := Unlocked(th)];
      }
    }

    /** rt_enter_critical; it waits until no other thread is in a critical section. */
    method EnterCritical(c: nat)
      requires Valid() && c < n && (current[c].Is? ==> critical == Nobody || critical == current[c])
      modifies `threads, `critical
      ensures Valid() && c < |current|
      ensures current[c].Is? ==>
                var t := current[c].t;
                && t in old(threads) && critical == Is(t)
                && threads == old(threads)[t := old(threads)[t].(sched := old(threads)[t].sched + 1,
                    crit := old(threads)[t].crit + 1)]
      ensures !current[c].Is? ==> threads == old(threads) && critical == old(critical)
    {
      hide WaitsOk, World;
      CurrentKnown(threads, queues, current, ready, n, lock, critical, c);
      if current[c].Is? {
        var t := current[c].t;
        var th := threads[t].(sched := threads[t].sched + 1, crit := threads[t].crit + 1);
        CritMore(threads, queues, current, ready, n, lock, critical, c, t);
        if threads[t].crit == 0 {
          critical := Is(t);
        }
        WaitsStay(threads, waits, sleeping, t, th);
        threads := threads[t := th];
      }
    }

    /** rt_exit_critical; `again` says that it goes on to call the scheduler. */
    method ExitCritical(c: nat) returns (again: bool)
      requires Valid() && c < n && (current[c].Is? ==> current[c].t in threads && threads[current[c].t].crit > 0)
      modifies `threads, `critical
      ensures Valid() && c < |current|
      ensures !current[c].Is? ==> threads == old(threads) && critical == old(critical) && !again
      ensures current[c].Is? ==>
                var t := current[c].t;
                && t in old(threads) && (critical == if old(threads)[t].crit == 1 then Nobody else Is(t))
                && threads == old(threads)[t := old(threads)[t].(sched := old(threads)[t].sched - 1,
                    crit := old(threads)[t].crit - 1)]
                && (again <==> old(threads)[t].sched == 1)
    {
      hide WaitsOk, World;
      CurrentKnown(threads, queues, current, ready, n, lock, critical, c);
      again := false;
      if current[c].Is? {
        var t := current[c].t;
        var th := threads[t].(sched := threads[t].sched - 1, crit := threads[t].crit - 1);
        CritLess(threads, queues, current, ready, n, lock, critical, c, t);
        if th.crit == 0 {
          critical := Nobody;
        }
        if th.sched <= 0 {
          th := th.(sched := 0);
          again := true;
        }
        WaitsStay(threads, waits, sleeping, t, th);
        threads := threads[t := th];
      }
    }

    // rt_preempt_disable, in front of a spinlock
    method PreemptDisable(c: nat, t: Tid)
      requires Valid() && On(c, t)
      modifies `threads
      ensures Valid() && threads == old(threads)[t := old(threads)[t].(sched := old(threads)[t].sched + 1)]
    {
      hide WaitsOk, World;
      SchedMoves(threads, queues, current, ready, n, lock, critical, c, t, threads[t].sched + 1);
      WaitsStay(threads, waits, sleeping, t, threads[t].(sched := threads[t].sched + 1));
      threads := threads[t := threads[t].(sched := threads[t].sched + 1)];
    }

    // rt_preempt_enable up to the call of the scheduler, for a spinlock taken before
    method PreemptEnable(c: nat, t: Tid)
      requires Valid() && On(c, t) && threads[t].sched > threads[t].crit + One(threads[t].cpus > 0)
      modifies `threads
      ensures Valid() && threads == old(threads)[t := old(threads)[t].(sched := old(threads)[t].sched - 1)]
    {
      hide WaitsOk, World;
      SchedMoves(threads, queues, current, ready, n, lock, critical, c, t, threads[t].sched - 1);
      WaitsStay(threads, waits, sleeping, t, threads[t].(sched := threads[t].sched - 1));
      threads := threads[t := threads[t].(sched := threads[t].sched - 1)];
    }

    // ---- switching ----

    // The current thread is on no CPU any more, and goes back to the ready queue if it could run on
    method GiveUp(c: nat, t: Tid)
      requires Valid() && On(c, t) && lock == c && threads[t].cpus > 0 && threads[t].sched == 1
      modifies `threads, `queues, `ready
      ensures Between(threads, queues, current, ready, n, critical, c) && WaitsOk(threads, waits, sleeping)
      ensures var th := old(threads)[t];
              if th.stat == Running then
                threads == old(threads)[t := th.(stat := Ready, yielding := false, oncpu := DETACHED)] &&
                    ready == old(ready)[t := Spot(th.bind, th.prio)]
              else
                threads == old(threads)[t := th.(oncpu := DETACHED)] && ready == old(ready)
      ensures t !in old(ready)
      ensures if old(threads)[t].stat == Running then Appended(old(queues), queues, t, old(threads)[t])
          else queues == old(queues)
    {
      hide WaitsOk, World, State, NestsOk, CriticalOk, OthersOut, Appended, Enqueue;
      var th := threads[t];
      if th.stat == Running {
        GiveUpReady(threads, queues, current, ready, n, lock, critical, c, t);
        EnqueueAppends(queues, t, th);
        queues := queues[th.bind := Enqueue(queues[th.bind], t, th.prio, th.mask)];
        WaitsStay(threads, waits, sleeping, t, th.(stat := Ready, yielding := false, oncpu := DETACHED));
        threads := threads[t := th.(stat := Ready, yielding := false, oncpu := DETACHED)];
        ready := ready[t := Spot(th.bind, th.prio)];
      } else {
        GiveUpAsleep(threads, queues, current, ready, n, lock, critical, c, t);
        WaitsStay(threads, waits, sleeping, t, th.(oncpu := DETACHED));
        threads := threads[t := th.(oncpu := DETACHED)];
      }
    }

    // The chosen thread is on this CPU, out of its queue, and running
    method TakeThread(c: nat, to: Tid)
      requires Between(threads, queues, current, ready, n, critical, c) && Visible(ready, n, c, to) && c < n
      requires WaitsOk(threads, waits, sleeping)
      modifies `threads, `queues, `ready
      ensures Switching(threads, queues, current, ready, n, critical, c, to) && WaitsOk(threads, waits, sleeping)
      ensures to in old(threads) && threads == old(threads)[to := old(threads)[to].(stat := Running, oncpu := c)] &&
          ready == old(ready) - {to}
      ensures threads[to].prio == old(ready)[to].prio && Dropped(old(queues), queues, to, old(threads)[to])
    {
      hide WaitsOk, State, NestsOk, CriticalOk, OthersOut, Switching, Dropped, Dequeue;
      TakeOver(threads, queues, current, ready, n, critical, c, to);
      var th := threads[to];
      DequeueDrops(queues, to, th);
      queues := queues[th.bind := Dequeue(queues[th.bind], to, th.prio, th.mask)];
      WaitsStay(threads, waits, sleeping, to, th.(stat := Running, oncpu := c));
      threads := threads[to := th.(stat := Running, oncpu := c)];
      ready := ready - {to};
    }

    /** The choice of rt_schedule and rt_scheduler_do_irq_switch: a running thread goes on unless a more
        urgent one is there, or an equally urgent one and its slice is over. */
    method Select(c: nat, t: Tid) returns (to: Tid)
      requires Valid() && On(c, t) && lock == c && threads[t].cpus > 0 && threads[t].sched == 1
      requires |queues| == n + 1 && (queues[n].group != 0 || queues[c].group != 0)
      modifies `threads, `queues, `ready, `pcpu
      ensures |pcpu| == n && (forall d :: 0 <= d < n && d != c ==> pcpu[d] == old(pcpu)[d])
      ensures to == t ==> Valid() && threads == old(threads) && ready == old(ready) && pcpu == old(pcpu)
      ensures to == t ==>
                threads[t].stat == Running && Urgent(threads, ready, n, c, t) && GoesOn(threads[t], ready, n, c)
      ensures to != t ==> Switching(threads, queues, current, ready, n, critical, c, to) && t in threads
      ensures WaitsOk(threads, waits, sleeping)
      ensures to != t ==>
                && Urgent(threads, ready, n, c, to) && Best(old(ready), n, c, to)
                && !GoesOn(old(threads)[t], old(ready), n, c)
      ensures to != t ==> threads[t] == Given(old(threads)[t]) && pcpu[c] == old(pcpu)[c].(prio := pcpu[c].prio)
      ensures to != t ==> Leads(old(queues), old(ready), to) && to in threads && pcpu[c].prio == threads[to].prio
      ensures Moved(old(queues), queues, t, old(threads)[t], to, threads)
    {
      hide WaitsOk, World, Switching, State, Best, GoesOn, Between, Urgent, Leads, Appended, Dropped;
      var h, p := Highest(c);
      BestMeans(ready, n, c, h);
      OnIsNotReady(threads, queues, current, ready, n, lock, critical, c, t);
      SizesKnown(threads, queues, current, ready, n, lock, critical);
      GoesOnMeans(threads, ready, n, c, t, h);
      var th := threads[t];
      if th.stat == Running && (th.prio < p || (th.prio == p && !th.yielding)) {
        return t;
      }
      to := h;
      ghost var rd := ready;
      GiveUp(c, t);
      pcpu := pcpu[c := pcpu[c].(prio := p)];
      ghost var mid, ts := queues, threads;
      TakeThread(c, to);
      TurnedBy(old(queues), mid, queues, t, th, to, ts[to], threads);
      UrgentAfter(rd, ready, threads, n, c, t, to, th);
    }

    // rt_hw_context_switch ends in rt_cpus_lock_status_restore
    method SwitchTo(c: nat, to: Tid)
      requires Switching(threads, queues, current, ready, n, critical, c, to) && c < n && lock == c && |pcpu| == n
      requires WaitsOk(threads, waits, sleeping)
      modifies `current, `lock
      ensures Valid() && On(c, to) && current == old(current)[c := Is(to)]
      ensures lock == if threads[to].cpus > 0 then c else FREE
    {
      SwitchEnds(threads, queues, current, ready, n, lock, critical, c, to);
      hide WaitsOk, State, World, NestsOk, CriticalOk, OthersOut;
      current := current[c := Is(to)];
      if threads[to].cpus == 0 {
        lock := FREE;
      }
    }

    // The part under the lock, once it is known that CPU c may switch
    method Reschedule(c: nat, t: Tid) returns (to: Tid)
      requires Valid() && On(c, t) && lock == c && threads[t].cpus > 0 && threads[t].sched == 1
      modifies `threads, `queues, `ready, `pcpu
      ensures |pcpu| == n && (forall d :: 0 <= d < n && d != c ==> pcpu[d] == old(pcpu)[d])
      ensures pcpu[c].irqNest == old(pcpu)[c].irqNest && pcpu[c].irqSwitch == old(pcpu)[c].irqSwitch
      ensures to == t ==> Valid() && threads == old(threads) && ready == old(ready)
      ensures to != t ==> Switching(threads, queues, current, ready, n, critical, c, to)
      ensures WaitsOk(threads, waits, sleeping)
      ensures t in threads && (to != t ==> threads[t] == Given(old(threads)[t]))
      ensures Scheduled(threads, ready, n, c, to, t, old(threads)[t], old(ready))
      ensures Moved(old(queues), queues, t, old(threads)[t], to, threads)
      ensures to != t ==> Leads(old(queues), old(ready), to)
    {
      hide WaitsOk, World, Switching, Best, GoesOn, Urgent, Visible, Turned, Leads;
      SizesKnown(threads, queues, current, ready, n, lock, critical);
      to := t;
      if queues[n].group != 0 || queues[c].group != 0 {
        to := Select(c, t);
      } else {
        NobodyVisible(threads, queues, current, ready, n, lock, critical, c, t);
      }
      if to != t {
        SwitchRuns(threads, queues, current, ready, n, critical, c, to);
      }
    }

    /** rt_schedule. Inside an interrupt it only leaves a note; under a lock of the thread's own it does
        nothing; otherwise no thread that the CPU may take is more urgent than the one it runs afterwards. */
    method Schedule(c: nat, t: Tid) returns (to: Tid)
      requires Valid() && On(c, t) && (lock == FREE || lock == c)
      modifies this
      ensures Valid() && On(c, to) && current == old(current)[c := Is(to)] && waits == old(waits) &&
          sleeping == old(sleeping)
      ensures var still := old(pcpu)[c].irqNest > 0 || !Preemptible(old(threads)[t]);
              && (still ==> to == t && threads == old(threads) && ready == old(ready))
              && (!still ==> Scheduled(threads, ready, n, c, to, t, old(threads)[t], old(ready)))
      ensures Moved(old(queues), queues, t, old(threads)[t], to, threads)
      ensures to != t ==> Leads(old(queues), old(ready), to)
      ensures old(pcpu)[c].irqNest > 0 ==> pcpu == old(pcpu)[c := old(pcpu)[c].(irqSwitch := true)]
    {
      hide WaitsOk, World, Switching, Scheduled, Turned, Leads;
      CpusLock(c);
      LockUnlock(old(threads), t, old(ready), n, c);
      assert current[c := Is(t)] == current;
      to := t;
      if pcpu[c].irqNest != 0 {
        pcpu := pcpu[c := pcpu[c].(irqSwitch := true)];
      } else if threads[t].sched == 1 {
        to := Reschedule(c, t);
        ScheduledLocked(threads, ready, n, c, to, t, old(threads)[t], old(ready), if to == t then old(threads)[t]
            else threads[t]);
        MovedLocked(old(queues), queues, t, old(threads)[t], to, threads, threads);
        if to != t {
          SwitchTo(c, to);
          return;
        }
      }
      CpusUnlock(c);
    }

    /** rt_scheduler_do_irq_switch, at the end of an interrupt: the delayed switch. The thread was interrupted
        outside any locked region, so it is not inside one when it is switched back to. */
    method IrqSwitch(c: nat, t: Tid) returns (to: Tid)
      requires Valid() && On(c, t) && lock == FREE && threads[t].cpus == 0
      modifies this
      ensures Valid() && On(c, to) && current == old(current)[c := Is(to)] && waits == old(waits) &&
          sleeping == old(sleeping)
      ensures var still := !old(pcpu)[c].irqSwitch || old(pcpu)[c].irqNest > 0 || !Preemptible(old(threads)[t]);
              && (still ==> to == t && threads == old(threads) && ready == old(ready) && pcpu == old(pcpu))
              && (!still ==> Scheduled(threads, ready, n, c, to, t, old(threads)[t], old(ready)) && !pcpu[c].irqSwitch)
      ensures to != t ==> t in threads && threads[t].cpus == 0
      ensures Moved(old(queues), queues, t, old(threads)[t], to, threads)
      ensures to != t ==> Leads(old(queues), old(ready), to)
    {
      hide WaitsOk, World, Switching, Scheduled, Turned, Leads;
      CpusLock(c);
      LockUnlock(old(threads), t, old(ready), n, c);
      assert current[c := Is(t)] == current;
      to := t;
      if pcpu[c].irqSwitch && threads[t].sched == 1 && pcpu[c].irqNest == 0 {
        pcpu := pcpu[c := pcpu[c].(irqSwitch := false)];
        to := Reschedule(c, t);
        var from := threads[t].(cpus := threads[t].cpus - 1, sched := threads[t].sched - 1);
        ScheduledLocked(threads, ready, n, c, to, t, old(threads)[t], old(ready), if to == t then old(threads)[t]
            else from);
        if to != t {
          Released(threads, queues, current, ready, n, critical, c, to, t, from);
          WaitsStay(threads, waits, sleeping, t, from);
          MovedLocked(old(queues), queues, t, old(threads)[t], to, threads, threads[t := from]);
          threads := threads[t := from];
          SwitchTo(c, to);
          return;
        }
      }
      CpusUnlock(c);
    }

    /** rt_system_scheduler_start on one CPU: its first thread. */
    method Start(c: nat) returns (to: Tid)
      requires Valid() && c < n && lock == FREE && c < |current| && current[c] == Nobody
      requires |queues| == n + 1 && (queues[n].group != 0 || queues[c].group != 0)
      modifies `threads, `queues, `ready, `current, `lock
      ensures Valid() && On(c, to) && current == old(current)[c := Is(to)] && Best(old(ready), n, c, to)
      ensures Urgent(threads, ready, n, c, to) && !threads[to].yielding
      ensures Dropped(old(queues), queues, to, threads[to]) && Leads(old(queues), old(ready), to)
    {
      hide WaitsOk, World, Switching, Best, Urgent, Between, Leads;
      var p;
      to, p := Highest(c);
      Idle(threads, queues, current, ready, n, lock, critical, c);
      BestVisible(ready, n, c, to);
      ghost var rd := ready;
      TakeThread(c, to);
      UrgentLess(rd, ready, threads, n, c, to);
      lock := c;
      SwitchTo(c, to);
      // to_thread->stat was set as a whole
      ThreadFacts(threads, queues, current, ready, n, lock, critical, to);
      OnIsNotReady(threads, queues, current, ready, n, lock, critical, c, to);
      UrgentStays(threads, ready, n, c, to, threads[to].(yielding := false));
      Alter(threads, queues, current, ready, n, lock, critical, to, threads[to].(yielding := false));
      WaitsStay(threads, waits, sleeping, to, threads[to].(yielding := false));
      threads := threads[to := threads[to].(yielding := false)];
    }

    // The interrupt nest of a CPU
    method IrqEnter(c: nat)
      requires Valid() && c < n
      modifies `pcpu
      ensures Valid() && pcpu == old(pcpu)[c := old(pcpu)[c].(irqNest := old(pcpu)[c].irqNest + 1)]
    {
      pcpu := pcpu[c := pcpu[c].(irqNest := pcpu[c].irqNest + 1)];
    }

    method IrqLeave(c: nat)
      requires Valid() && c < n && pcpu[c].irqNest > 0
      modifies `pcpu
      ensures Valid() && pcpu == old(pcpu)[c := old(pcpu)[c].(irqNest := old(pcpu)[c].irqNest - 1)]
    {
      pcpu := pcpu[c := pcpu[c].(irqNest := pcpu[c].irqNest - 1)];
    }
  }

  // A thread that does not sleep is in no wait list
  lemma AwakeInNone(ts: Threads, waits: Waits, sleeping: Sleeping, t: Tid)
    requires WaitsOk(ts, waits, sleeping) && t in ts && ts[t].stat != Suspend
    ensures t !in sleeping
  {
  }

  lemma EmptyQueues(qs: seq<Queue>, n: nat)
    requires |qs| == n + 1 && forall b :: 0 <= b <= n ==> qs[b] == Queue(seq(PRIORITIES, _ => []), 0)
    ensures QueuesOk(qs, map[], n)
  {
    forall b | 0 <= b <= n
      ensures QueueOk(qs[b], b, map[])
    {
      forall p | 0 <= p < PRIORITIES
        ensures ListOk(qs[b], b, p, map[])
      {
        NoBits(p);
      }
    }
  }
}
