/** The state of the SMP scheduler of rt-thread/src/scheduler.c as data. CPUs are 0..n-1; ready queue n is the
    global one (bind_cpu == RT_CPUS_NR), queue b < n belongs to CPU b. A smaller priority number is more urgent. */
module SchedulerRep {
  import opened Sequences
  import opened Bits

  type Tid = nat

  const DETACHED: nat := 255     // RT_CPU_DETACHED

  datatype Stat = Init | Ready | Suspend | Running | Close

  datatype Thread = Thread(
    stat: Stat,            // stat & RT_THREAD_STAT_MASK
    yielding: bool,        // stat & RT_THREAD_STAT_YIELD
    initial: nat,          // init_priority
    prio: nat,             // current_priority
    mask: bv32,            // number_mask
    bind: nat,             // bind_cpu
    oncpu: nat,
    cpus: nat,             // cpus_lock_nest
    sched: int,            // scheduler_lock_nest
    crit: nat)             // critical_lock_nest

  type Threads = map<Tid, Thread>

  // One priority table with its group
  datatype Queue = Queue(lists: seq<seq<Tid>>, group: bv32)

  datatype Current = Nobody | Is(t: Tid)

  // Where a ready thread stands
  datatype Spot = Spot(bind: nat, prio: nat)

  type Spots = map<Tid, Spot>

  // ---- ready queues ----

  // The list of one priority holds exactly the threads ready there, and its bit says whether there are any
  ghost predicate ListOk(q: Queue, b: nat, p: nat, ready: Spots)
    requires p < PRIORITIES && |q.lists| == PRIORITIES
  {
    && Distinct(q.lists[p])
    && (forall t :: t in q.lists[p] <==> t in ready && ready[t] == Spot(b, p))
    && (Bit(q.group, p) <==> q.lists[p] != [])
  }

  ghost predicate QueueOk(q: Queue, b: nat, ready: Spots) {
    |q.lists| == PRIORITIES && forall p :: 0 <= p < PRIORITIES ==> ListOk(q, b, p, ready)
  }

  ghost predicate QueuesOk(qs: seq<Queue>, ready: Spots, n: nat) {
    && |qs| == n + 1
    && (forall b :: 0 <= b <= n ==> QueueOk(qs[b], b, ready))
    && (forall t :: t in ready ==> ready[t].bind <= n && ready[t].prio < PRIORITIES)
  }

  // rt_list_insert_before the head, and the bit of the priority
  function Enqueue(q: Queue, t: Tid, p: nat, mask: bv32): Queue
    requires p < |q.lists|
  {
    Queue(q.lists[p := q.lists[p] + [t]], With(q.group, mask))
  }

  // rt_list_remove, and the bit cleared when the list of the priority is empty
  function Dequeue(q: Queue, t: Tid, p: nat, mask: bv32): Queue
    requires p < |q.lists|
  {
    var list := Without(q.lists[p], t);
    Queue(q.lists[p := list], if list == [] then Less(q.group, mask) else q.group)
  }

  // One list has changed
  ghost predicate ListNow(qs: seq<Queue>, qs': seq<Queue>, b: nat, p: nat, list: seq<Tid>) {
    && b < |qs| == |qs'| && p < |qs[b].lists|
    && (forall c :: 0 <= c < |qs| ==> |qs'[c].lists| == |qs[c].lists|)
    && (forall c, r :: 0 <= c < |qs| && 0 <= r < |qs[c].lists| ==>
            qs'[c].lists[r] == if c == b && r == p then list else qs[c].lists[r])
  }

  // t went to the end of the list of its binding and priority, or left it; t is the first of its list
  ghost predicate Appended(qs: seq<Queue>, qs': seq<Queue>, t: Tid, th: Thread) {
    && th.bind < |qs| && th.prio < |qs[th.bind].lists|
    && ListNow(qs, qs', th.bind, th.prio, qs[th.bind].lists[th.prio] + [t])
  }

  ghost predicate Dropped(qs: seq<Queue>, qs': seq<Queue>, t: Tid, th: Thread) {
    && th.bind < |qs| && th.prio < |qs[th.bind].lists|
    && ListNow(qs, qs', th.bind, th.prio, Without(qs[th.bind].lists[th.prio], t))
  }

  ghost predicate Leads(qs: seq<Queue>, ready: Spots, t: Tid) {
    && t in ready && ready[t].bind < |qs| && ready[t].prio < |qs[ready[t].bind].lists|
    && qs[ready[t].bind].lists[ready[t].prio] != [] && qs[ready[t].bind].lists[ready[t].prio][0] == t
  }

  // What a switch from t to `to` does: t goes back to its list if it could run on, then `to` leaves its own
  ghost predicate Turned(qs: seq<Queue>, qs': seq<Queue>, t: Tid, th: Thread, to: Tid, next: Thread) {
    exists mid :: (if th.stat == Running then Appended(qs, mid, t, th) else mid == qs) && Dropped(mid, qs', to, next)
  }

  // The same, or nothing moved if t runs on
  ghost predicate Moved(qs: seq<Queue>, qs': seq<Queue>, t: Tid, th: Thread, to: Tid, ts: Threads) {
    if to == t then qs' == qs else to in ts && Turned(qs, qs', t, th, to, ts[to])
  }

  /** A thread that becomes ready stands behind all that were there, who keep their order, and no other list changes. */
  lemma AppendedMeans(qs: seq<Queue>, qs': seq<Queue>, t: Tid, th: Thread)
    requires Appended(qs, qs', t, th)
    ensures |qs'| == |qs| && forall c :: 0 <= c < |qs| ==> |qs'[c].lists| == |qs[c].lists|
    ensures forall c, r :: 0 <= c < |qs| && 0 <= r < |qs[c].lists| && (c != th.bind || r != th.prio) ==>
              qs'[c].lists[r] == qs[c].lists[r]
    ensures th.bind < |qs| && th.prio < |qs[th.bind].lists|
    ensures var (was, now) := (qs[th.bind].lists[th.prio], qs'[th.bind].lists[th.prio]);
            && |now| == |was| + 1 && now[|was|] == t
            && forall i :: 0 <= i < |was| ==> now[i] == was[i]
  {
  }

  /** A thread that leaves its list leaves the others in their order, and no other list changes. */
  lemma DroppedMeans(qs: seq<Queue>, qs': seq<Queue>, t: Tid, th: Thread)
    requires Dropped(qs, qs', t, th) && Distinct(qs[th.bind].lists[th.prio])
    ensures |qs'| == |qs| && forall c :: 0 <= c < |qs| ==> |qs'[c].lists| == |qs[c].lists|
    ensures forall c, r :: 0 <= c < |qs| && 0 <= r < |qs[c].lists| && (c != th.bind || r != th.prio) ==>
              qs'[c].lists[r] == qs[c].lists[r]
    ensures var (was, now) := (qs[th.bind].lists[th.prio], qs'[th.bind].lists[th.prio]);
            && (t !in was ==> now == was)
            && forall i :: 0 <= i < |was| && was[i] == t ==> now == was[..i] + was[i + 1..]
  {
    hide Without, Distinct;
    var was := qs[th.bind].lists[th.prio];
    WithoutMembers(was, t);
    forall i | 0 <= i < |was| && was[i] == t
      ensures Without(was, t) == was[..i] + was[i + 1..]
    {
      WithoutAt(was, i);
    }
  }

  /** So whoever leads a list still leads it when another thread becomes ready; */
  lemma LeaderStays(qs: seq<Queue>, qs': seq<Queue>, ready: Spots, t: Tid, th: Thread, x: Tid)
    requires Appended(qs, qs', t, th) && Leads(qs, ready, x) && x != t
    ensures Leads(qs', ready[t := Spot(th.bind, th.prio)], x)
  {
    hide Appended;
    AppendedMeans(qs, qs', t, th);
  }

  /** and with each switch to the leader of a list everyone behind it comes one place nearer, and nobody overtakes. */
  lemma TurnComes(qs: seq<Queue>, qs': seq<Queue>, ready: Spots, t: Tid, th: Thread, to: Tid, next: Thread, k: nat)
    requires Turned(qs, qs', t, th, to, next) && Leads(qs, ready, to) && ready[to] == Spot(next.bind, next.prio)
    requires Distinct(qs[next.bind].lists[next.prio]) && t !in qs[next.bind].lists[next.prio]
    ensures next.bind < |qs'| && next.prio < |qs'[next.bind].lists|
    ensures var (was, now) := (qs[next.bind].lists[next.prio], qs'[next.bind].lists[next.prio]);
            |was| - 1 <= |now| && forall i :: 1 <= i < |was| ==> now[i - 1] == was[i]
  {
    var mid: seq<Queue> :| (if th.stat == Running then Appended(qs, mid, t, th) else mid == qs) &&
        Dropped(mid, qs', to, next);
    hide Appended, Dropped, Without;
    if th.stat == Running {
      AppendedMeans(qs, mid, t, th);
    }
    DroppedShape(mid, qs', to, next);
    var was, between := qs[next.bind].lists[next.prio], mid[next.bind].lists[next.prio];
    assert between == was || between == was + [t];
    assert between[0] == to && Distinct(between);
    DroppedMeans(mid, qs', to, next);
    assert qs'[next.bind].lists[next.prio] == between[1..];
  }

  lemma TurnedBy(qs: seq<Queue>, mid: seq<Queue>, qs': seq<Queue>, t: Tid, th: Thread, to: Tid, next: Thread,
      ts: Threads)
    requires if th.stat == Running then Appended(qs, mid, t, th) else mid == qs
    requires Dropped(mid, qs', to, next) && to in ts && ts[to].bind == next.bind && ts[to].prio == next.prio && to != t
    ensures Moved(qs, qs', t, th, to, ts)
  {
    hide ListNow;
    assert Dropped(mid, qs', to, ts[to]);
  }

  // The nests do not matter
  lemma MovedLocked(qs: seq<Queue>, qs': seq<Queue>, t: Tid, th: Thread, to: Tid, ts: Threads, ts': Threads)
    requires Moved(qs, qs', t, Locked(th), to, ts) && (to in ts ==> to in ts' && ts'[to] == ts[to])
    ensures Moved(qs, qs', t, th, to, ts')
  {
    hide ListNow;
    if to != t {
      var mid: seq<Queue> :| (if th.stat == Running then Appended(qs, mid, t, Locked(th)) else mid == qs)
                             && Dropped(mid, qs', to, ts[to]);
      assert th.stat == Running ==> Appended(qs, mid, t, th);
    }
  }

  lemma DroppedShape(qs: seq<Queue>, qs': seq<Queue>, t: Tid, th: Thread)
    requires Dropped(qs, qs', t, th)
    ensures |qs'| == |qs| && th.bind < |qs| && th.prio < |qs[th.bind].lists| == |qs'[th.bind].lists|
  {
  }

  lemma EnqueueAppends(qs: seq<Queue>, t: Tid, th: Thread)
    requires th.bind < |qs| && th.prio < |qs[th.bind].lists|
    ensures Appended(qs, qs[th.bind := Enqueue(qs[th.bind], t, th.prio, th.mask)], t, th)
  {
    hide With;
  }

  lemma DequeueDrops(qs: seq<Queue>, t: Tid, th: Thread)
    requires th.bind < |qs| && th.prio < |qs[th.bind].lists|
    ensures Dropped(qs, qs[th.bind := Dequeue(qs[th.bind], t, th.prio, th.mask)], t, th)
  {
    hide Less, Without;
  }

  lemma TablesOf(ts: Threads, qs: seq<Queue>, cur: seq<Current>, ready: Spots, n: nat, lock: int, critical: Current,
      t: Tid)
    requires World(ts, qs, cur, ready, n, lock, critical) && t in ts
    ensures ts[t].bind < |qs| && ts[t].prio < |qs[ts[t].bind].lists|
  {
    assert ThreadOk(ts[t], n) && QueueOk(qs[ts[t].bind], ts[t].bind, ready);
  }

  lemma EnqueueList(q: Queue, b: nat, ready: Spots, t: Tid, p: nat, c: nat, r: nat)
    requires QueueOk(q, c, ready) && t !in ready && p < PRIORITIES && r < PRIORITIES
    ensures c == b ==> ListOk(Enqueue(q, t, p, Mask(p)), c, r, ready[t := Spot(b, p)])
    ensures c != b ==> ListOk(q, c, r, ready[t := Spot(b, p)])
  {
    hide Bit, Mask, With;
    assert ListOk(q, c, r, ready) && ListOk(q, c, p, ready);
    SetClear(q.group, p, r);
    assert c == b && r == p ==> forall x :: x in q.lists[p] + [t] <==> x in q.lists[p] || x == t;
  }

  /** rt_schedule_insert_thread keeps every list and every bit right. */
  lemma EnqueueOk(qs: seq<Queue>, ready: Spots, n: nat, t: Tid, b: nat, p: nat)
    requires QueuesOk(qs, ready, n) && t !in ready && b <= n && p < PRIORITIES
    ensures QueuesOk(qs[b := Enqueue(qs[b], t, p, Mask(p))], ready[t := Spot(b, p)], n)
  {
    hide ListOk, Mask;
    var qs' := qs[b := Enqueue(qs[b], t, p, Mask(p))];
    var ready' := ready[t := Spot(b, p)];
    forall c | 0 <= c <= n
      ensures QueueOk(qs'[c], c, ready')
    {
      forall r | 0 <= r < PRIORITIES
        ensures ListOk(qs'[c], c, r, ready')
      {
        EnqueueList(qs[c], b, ready, t, p, c, r);
      }
    }
  }

  lemma DequeueList(q: Queue, b: nat, ready: Spots, t: Tid, p: nat, c: nat, r: nat)
    requires QueueOk(q, c, ready) && t in ready && ready[t] == Spot(b, p) && p < PRIORITIES && r < PRIORITIES
    ensures c == b ==> ListOk(Dequeue(q, t, p, Mask(p)), c, r, ready - {t})
    ensures c != b ==> ListOk(q, c, r, ready - {t})
  {
    hide Bit, Mask, Less, Without;
    assert ListOk(q, c, r, ready) && ListOk(q, c, p, ready);
    SetClear(q.group, p, r);
    WithoutMembers(q.lists[p], t);
  }

  /** rt_schedule_remove_thread keeps them right, too. */
  lemma DequeueOk(qs: seq<Queue>, ready: Spots, n: nat, t: Tid, b: nat, p: nat)
    requires QueuesOk(qs, ready, n) && t in ready && ready[t] == Spot(b, p) && b <= n && p < PRIORITIES
    ensures QueuesOk(qs[b := Dequeue(qs[b], t, p, Mask(p))], ready - {t}, n)
  {
    hide ListOk, Mask;
    var qs' := qs[b := Dequeue(qs[b], t, p, Mask(p))];
    forall c | 0 <= c <= n
      ensures QueueOk(qs'[c], c, ready - {t})
    {
      forall r | 0 <= r < PRIORITIES
        ensures ListOk(qs'[c], c, r, ready - {t})
      {
        DequeueList(qs[c], b, ready, t, p, c, r);
      }
    }
  }

  lemma LessNone(g: bv32, m: bv32)
    requires !Has(g, m)
    ensures Less(g, m) == g
  {
  }

  // Removing a thread that is in no list changes nothing
  lemma DequeueNone(qs: seq<Queue>, ready: Spots, n: nat, t: Tid, b: nat, p: nat)
    requires QueuesOk(qs, ready, n) && t !in ready && b <= n && p < PRIORITIES
    ensures qs[b := Dequeue(qs[b], t, p, Mask(p))] == qs
  {
    hide Mask, Has, Less, Without;
    assert QueueOk(qs[b], b, ready);
    assert ListOk(qs[b], b, p, ready);
    var q := qs[b];
    WithoutMembers(q.lists[p], t);
    assert q.lists[p := q.lists[p]] == q.lists;
    if q.lists[p] == [] {
      assert !Bit(q.group, p);
      LessNone(q.group, Mask(p));
    }
    assert Dequeue(q, t, p, Mask(p)) == q;
    assert qs[b := q] == qs;
  }

  // ---- selection ----

  // Threads CPU c may take: those of the global table and its own
  ghost predicate Visible(ready: Spots, n: nat, c: nat, t: Tid) {
    t in ready && (ready[t].bind == n || ready[t].bind == c)
  }

  // t is a most urgent thread that CPU c may take
  ghost predicate Best(ready: Spots, n: nat, c: nat, t: Tid) {
    Visible(ready, n, c, t) && forall x :: Visible(ready, n, c, x) ==> ready[t].prio <= ready[x].prio
  }

  // The lowest bit of a group is the most urgent priority of its table
  lemma FirstInQueue(q: Queue, b: nat, ready: Spots)
    requires QueueOk(q, b, ready)
    ensures Foremost(q, b, ready)
  {
    hide Ffs, Bit;
    FfsLowest(q.group);
    forall x | x in ready && ready[x].prio < PRIORITIES && ready[x].bind == b
      ensures Bit(q.group, ready[x].prio)
    {
      assert ListOk(q, b, ready[x].prio, ready);
    }
    if Ffs(q.group) > 0 {
      var p := Ffs(q.group) - 1;
      assert ListOk(q, b, p, ready);
      assert q.lists[p][0] in q.lists[p];
    } else {
      NoneReady(q, b, ready);
    }
  }

  lemma NoneReady(q: Queue, b: nat, ready: Spots)
    requires QueueOk(q, b, ready) && q.group == 0
    ensures forall x :: x in ready && ready[x].prio < PRIORITIES ==> ready[x].bind != b
  {
    hide Bit;
    forall x | x in ready && ready[x].prio < PRIORITIES && ready[x].bind == b
      ensures false
    {
      assert ListOk(q, b, ready[x].prio, ready);
      NoBits(ready[x].prio);
    }
  }

  // ---- threads ----

  // What holds of one thread at any time
  ghost predicate ThreadOk(th: Thread, n: nat) {
    && th.prio < PRIORITIES && th.initial < PRIORITIES && th.bind <= n
    && (th.oncpu == DETACHED || th.oncpu < n)
    && (th.stat != Init ==> th.mask == Mask(th.prio))
    && (th.stat == Running ==> th.oncpu != DETACHED)
    && (th.stat == Ready || th.stat == Init ==> th.oncpu == DETACHED)
    && (th.oncpu != DETACHED ==> th.bind == n || th.bind == th.oncpu)
  }

  ghost predicate ThreadsOk(ts: Threads, n: nat) {
    forall t :: t in ts ==> ThreadOk(ts[t], n)
  }

  // Exactly the READY threads stand in ready queues, by their binding and priority
  ghost predicate Standing(ts: Threads, ready: Spots) {
    && (forall t :: t in ready ==> t in ts)
    && (forall t :: t in ts ==> (t in ready <==> ts[t].stat == Ready))
    && (forall t :: t in ready && t in ts ==> ready[t] == Spot(ts[t].bind, ts[t].prio))
  }

  // oncpu and current_thread agree
  ghost predicate OnCpus(ts: Threads, cur: seq<Current>, n: nat) {
    && |cur| == n
    && (forall c :: 0 <= c < n && cur[c].Is? ==> cur[c].t in ts && ts[cur[c].t].oncpu == c)
    && (forall t :: t in ts && ts[t].oncpu < n ==> cur[ts[t].oncpu] == Is(t))
  }

  ghost predicate State(ts: Threads, qs: seq<Queue>, cur: seq<Current>, ready: Spots, n: nat) {
    && 0 < n < DETACHED && QueuesOk(qs, ready, n) && ThreadsOk(ts, n) && Standing(ts, ready) && OnCpus(ts, cur, n)
  }

  ghost predicate Attached(th: Thread) {
    th.oncpu != DETACHED
  }

  // ---- wait lists ----

  // The suspend lists of the IPC objects, by object, and for each thread in one of them which one
  type Waits = map<nat, seq<Tid>>

  type Sleeping = map<Tid, nat>

  ghost predicate WaitListOk(list: seq<Tid>, l: nat, sleeping: Sleeping) {
    Distinct(list) && forall t :: t in list <==> t in sleeping && sleeping[t] == l
  }

  // Only sleeping threads stand in wait lists, each in one
  ghost predicate WaitsOk(ts: Threads, waits: Waits, sleeping: Sleeping) {
    && (forall t :: t in sleeping ==> t in ts && ts[t].stat == Suspend && sleeping[t] in waits)
    && (forall l :: l in waits ==> WaitListOk(waits[l], l, sleeping))
  }

  // A thread changes that is in no wait list, or that sleeps on
  lemma WaitsStay(ts: Threads, waits: Waits, sleeping: Sleeping, t: Tid, th: Thread)
    requires WaitsOk(ts, waits, sleeping)
    requires t !in ts || ts[t].stat != Suspend || t !in sleeping || th.stat == Suspend
    ensures WaitsOk(ts[t := th], waits, sleeping)
  {
  }

  /** rt_ipc_list_suspend, behind rt_thread_suspend: the thread was in no list and joins one. */
  lemma JoinsList(ts: Threads, waits: Waits, sleeping: Sleeping, t: Tid, l: nat, k: nat)
    requires WaitsOk(ts, waits, sleeping) && t in ts && ts[t].stat == Suspend && t !in sleeping && l in waits &&
        k <= |waits[l]|
    ensures WaitsOk(ts, waits[l := Inserted(waits[l], k, t)], sleeping[t := l])
  {
    assert WaitListOk(waits[l], l, sleeping);
    InsertedOk(waits[l], k, t, l, sleeping);
    var waits', sleeping' := waits[l := Inserted(waits[l], k, t)], sleeping[t := l];
    forall m | m in waits'
      ensures WaitListOk(waits'[m], m, sleeping')
    {
      assert WaitListOk(waits[m], m, sleeping);
    }
  }

  function Inserted(list: seq<Tid>, k: nat, t: Tid): seq<Tid>
    requires k <= |list|
  {
    list[..k] + [t] + list[k..]
  }

  lemma InsertedOk(list: seq<Tid>, k: nat, t: Tid, l: nat, sleeping: Sleeping)
    requires WaitListOk(list, l, sleeping) && k <= |list| && t !in sleeping
    ensures WaitListOk(Inserted(list, k, t), l, sleeping[t := l])
  {
    var r := Inserted(list, k, t);
    assert list == list[..k] + list[k..];
    forall x
      ensures x in r <==> x in list || x == t
    {
      if x in list {
        var i :| 0 <= i < |list| && list[i] == x;
        assert r[if i < k then i else i + 1] == x;
      }
      assert r[k] == t;
    }
  }

  // rt_list_remove takes the thread out of whatever list it is in
  function TakenOut(waits: Waits, t: Tid): (r: Waits)
    ensures r.Keys == waits.Keys
  {
    map l | l in waits :: Without(waits[l], t)
  }

  /** rt_thread_resume and rt_thread_timeout: the thread is in no list any more, and no other list has changed. */
  lemma LeavesList(ts: Threads, waits: Waits, sleeping: Sleeping, t: Tid)
    requires WaitsOk(ts, waits, sleeping)
    ensures WaitsOk(ts, TakenOut(waits, t), sleeping - {t})
    ensures forall l :: l in waits && !(t in sleeping && sleeping[t] == l) ==> TakenOut(waits, t)[l] == waits[l]
  {
    var waits' := TakenOut(waits, t);
    forall l | l in waits
      ensures WaitListOk(waits'[l], l, sleeping - {t})
      ensures !(t in sleeping && sleeping[t] == l) ==> waits'[l] == waits[l]
    {
      assert WaitListOk(waits[l], l, sleeping);
      WithoutMembers(waits[l], t);
      hide Without, Distinct;
    }
  }

  /** The others in its list keep their order. */
  lemma LeavesOrder(ts: Threads, waits: Waits, sleeping: Sleeping, t: Tid, l: nat, i: nat)
    requires WaitsOk(ts, waits, sleeping) && l in waits && i < |waits[l]| && waits[l][i] == t
    ensures TakenOut(waits, t)[l] == waits[l][..i] + waits[l][i + 1..]
  {
    hide Without;
    assert WaitListOk(waits[l], l, sleeping);
    WithoutAt(waits[l], i);
  }

  /** A started, unclosed thread is in exactly one place: on one CPU that may run it, in the one list of its
      binding and priority, or asleep, and then in at most one wait list and there once. Awake it is in none. */
  lemma OnePlace(ts: Threads, qs: seq<Queue>, cur: seq<Current>, ready: Spots, n: nat, waits: Waits, sleeping: Sleeping,
      t: Tid)
    requires State(ts, qs, cur, ready, n) && WaitsOk(ts, waits, sleeping) && t in ts && ts[t].stat != Init &&
        ts[t].stat != Close
    ensures Attached(ts[t]) || ts[t].stat == Ready || ts[t].stat == Suspend
    ensures Attached(ts[t]) ==> ts[t].stat != Ready && ts[t].oncpu < n && cur[ts[t].oncpu] == Is(t)
                                && (ts[t].bind == n || ts[t].bind == ts[t].oncpu)
    ensures forall c :: 0 <= c < n && cur[c] == Is(t) ==> Attached(ts[t]) && ts[t].oncpu == c
    ensures forall b, p :: 0 <= b <= n && 0 <= p < PRIORITIES ==>
              |qs[b].lists| == PRIORITIES && (t in qs[b].lists[p] <==>
                  ts[t].stat == Ready && b == ts[t].bind && p == ts[t].prio)
    ensures forall l :: l in waits && t in waits[l] ==> ts[t].stat == Suspend && Distinct(waits[l])
    ensures forall l, m :: l in waits && m in waits && t in waits[l] && t in waits[m] ==> l == m
  {
    assert ThreadOk(ts[t], n);
    forall b, p | 0 <= b <= n && 0 <= p < PRIORITIES
      ensures |qs[b].lists| == PRIORITIES && (t in qs[b].lists[p] <==>
          ts[t].stat == Ready && b == ts[t].bind && p == ts[t].prio)
    {
      assert QueueOk(qs[b], b, ready);
      assert ListOk(qs[b], b, p, ready);
    }
    hide QueuesOk;
    forall l | l in waits && t in waits[l]
      ensures ts[t].stat == Suspend && Distinct(waits[l]) && t in sleeping && sleeping[t] == l
    {
      assert WaitListOk(waits[l], l, sleeping);
    }
  }

  /** No thread is current on two CPUs, and a bound thread only on its own. */
  lemma OneCpu(ts: Threads, qs: seq<Queue>, cur: seq<Current>, ready: Spots, n: nat, c: nat, d: nat)
    requires State(ts, qs, cur, ready, n) && c < n && d < n && cur[c].Is?
    ensures cur[c] == cur[d] ==> c == d
    ensures cur[c].t in ts && (ts[cur[c].t].bind == n || ts[cur[c].t].bind == c)
  {
    assert ThreadOk(ts[cur[c].t], n);
  }

  // -- one thread changes --

  lemma ThreadChanges(ts: Threads, n: nat, t: Tid, th: Thread)
    requires ThreadsOk(ts, n) && ThreadOk(th, n)
    ensures ThreadsOk(ts[t := th], n)
  {
    hide ThreadOk;
  }

  // A thread becomes ready
  lemma StandUp(ts: Threads, ready: Spots, t: Tid, th: Thread)
    requires Standing(ts, ready) && t in ts && th.stat == Ready
    ensures Standing(ts[t := th], ready[t := Spot(th.bind, th.prio)])
  {
  }

  // A thread is not ready any more, or never was
  lemma StandDown(ts: Threads, ready: Spots, t: Tid, th: Thread)
    requires Standing(ts, ready) && th.stat != Ready
    ensures Standing(ts[t := th], ready - {t})
  {
  }

  lemma SameCpu(ts: Threads, cur: seq<Current>, n: nat, t: Tid, th: Thread)
    requires OnCpus(ts, cur, n) && t in ts && th.oncpu == ts[t].oncpu
    ensures OnCpus(ts[t := th], cur, n)
  {
  }

  // ---- switching ----

  // A CPU lets go of its thread, which stays asleep or closed
  lemma LeaveAsleep(ts: Threads, qs: seq<Queue>, cur: seq<Current>, ready: Spots, n: nat, c: nat, t: Tid)
    requires State(ts, qs, cur, ready, n) && c < n && cur[c] == Is(t) && t in ts && ts[t].stat != Running
    ensures t !in ready
    ensures State(ts[t := ts[t].(oncpu := DETACHED)], qs, cur[c := Nobody], ready, n)
  {
    hide QueuesOk;
    var th := ts[t].(oncpu := DETACHED);
    assert ThreadOk(ts[t], n);
    ThreadChanges(ts, n, t, th);
    StandDown(ts, ready, t, th);
    assert ready - {t} == ready;
    LeaveCpu(ts, cur, n, c, t, th);
  }

  lemma LeaveCpu(ts: Threads, cur: seq<Current>, n: nat, c: nat, t: Tid, th: Thread)
    requires OnCpus(ts, cur, n) && 0 < n < DETACHED && c < n && cur[c] == Is(t) && th.oncpu == DETACHED
    ensures OnCpus(ts[t := th], cur[c := Nobody], n)
  {
  }

  lemma EnterCpu(ts: Threads, cur: seq<Current>, n: nat, c: nat, t: Tid, th: Thread)
    requires OnCpus(ts, cur, n) && c < n && cur[c] == Nobody && t in ts && ts[t].oncpu >= n && th.oncpu == c
    ensures OnCpus(ts[t := th], cur[c := Is(t)], n)
  {
  }

  // A CPU lets go of a running thread, which becomes ready
  lemma LeaveReady(ts: Threads, qs: seq<Queue>, cur: seq<Current>, ready: Spots, n: nat, c: nat, t: Tid)
    requires State(ts, qs, cur, ready, n) && c < n && cur[c] == Is(t) && t in ts && ts[t].stat == Running
    ensures t !in ready && ts[t].bind < |qs| && ts[t].prio < |qs[ts[t].bind].lists| && ts[t].mask == Mask(ts[t].prio)
    ensures var th := ts[t].(stat := Ready, yielding := false, oncpu := DETACHED);
            State(ts[t := th], qs[th.bind := Enqueue(qs[th.bind], t, th.prio, th.mask)], cur[c := Nobody],
                  ready[t := Spot(th.bind, th.prio)], n)
  {
    var th := ts[t].(stat := Ready, yielding := false, oncpu := DETACHED);
    assert ThreadOk(ts[t], n);
    assert QueueOk(qs[th.bind], th.bind, ready);
    hide QueueOk, Mask, Enqueue;
    EnqueueOk(qs, ready, n, t, th.bind, th.prio);
    hide QueuesOk;
    ThreadChanges(ts, n, t, th);
    StandUp(ts, ready, t, th);
    LeaveCpu(ts, cur, n, c, t, th);
  }

  // A free CPU takes a ready thread it may run
  lemma Take(ts: Threads, qs: seq<Queue>, cur: seq<Current>, ready: Spots, n: nat, c: nat, t: Tid)
    requires State(ts, qs, cur, ready, n) && c < n && cur[c] == Nobody && Visible(ready, n, c, t)
    ensures t in ts && ts[t].bind < |qs| && ts[t].prio < |qs[ts[t].bind].lists| && ts[t].stat == Ready
    ensures ready[t] == Spot(ts[t].bind, ts[t].prio) && ts[t].mask == Mask(ts[t].prio)
    ensures State(ts[t := ts[t].(stat := Running, oncpu := c)],
                  qs[ts[t].bind := Dequeue(qs[ts[t].bind], t, ts[t].prio, ts[t].mask)], cur[c := Is(t)], ready - {t}, n)
  {
    var th := ts[t].(stat := Running, oncpu := c);
    assert ThreadOk(ts[t], n);
    assert QueueOk(qs[th.bind], th.bind, ready);
    hide QueueOk, Mask, Dequeue;
    DequeueOk(qs, ready, n, t, th.bind, th.prio);
    hide QueuesOk;
    ThreadChanges(ts, n, t, th);
    StandDown(ts, ready, t, th);
    EnterCpu(ts, cur, n, c, t, th);
  }

  // ---- locks ----

  const FREE: int := -1

  ghost function One(b: bool): nat { if b then 1 else 0 }

  // scheduler_lock_nest counts the critical sections, the spinlocks and, once, the lock of all CPUs; a
  // thread that is off its CPU has left the first two
  ghost predicate NestOk(th: Thread) {
    && th.sched >= th.crit + One(th.cpus > 0)
    && (th.oncpu == DETACHED ==> th.crit == 0 && th.sched == One(th.cpus > 0))
  }

  ghost predicate NestsOk(ts: Threads) {
    forall t :: t in ts ==> NestOk(ts[t])
  }

  // _cpus_lock is held by the CPU whose thread is inside a locked region
  ghost predicate LockOk(ts: Threads, cur: seq<Current>, lock: int) {
    && (lock == FREE || (0 <= lock < |cur| && cur[lock].Is?))
    && (forall c :: 0 <= c < |cur| && cur[c].Is? && cur[c].t in ts ==> (ts[cur[c].t].cpus > 0 <==> lock == c))
  }

  // _rt_critical_lock is held by the one thread inside critical sections
  ghost predicate CriticalOk(ts: Threads, critical: Current) {
    forall t :: t in ts ==> (ts[t].crit > 0 <==> critical == Is(t))
  }

  /** At most one CPU is inside a region that locks all CPUs. */
  lemma OneLockHolder(ts: Threads, cur: seq<Current>, lock: int, c: nat, d: nat)
    requires LockOk(ts, cur, lock) && c < |cur| && d < |cur| && cur[c].Is? && cur[d].Is? && cur[c].t in ts &&
        cur[d].t in ts
    ensures ts[cur[c].t].cpus > 0 && ts[cur[d].t].cpus > 0 ==> c == d
  {
  }

  ghost predicate Locks(ts: Threads, cur: seq<Current>, lock: int, critical: Current) {
    NestsOk(ts) && LockOk(ts, cur, lock) && CriticalOk(ts, critical)
  }

  // The current thread of c changes its nests and c's hold on the lock follows
  lemma NestChanges(ts: Threads, cur: seq<Current>, lock: int, critical: Current, n: nat, c: nat, t: Tid, th: Thread,
      lock': int)
    requires Locks(ts, cur, lock, critical) && OnCpus(ts, cur, n) && c < n && cur[c] == Is(t)
    requires NestOk(th) && (th.crit > 0 <==> ts[t].crit > 0)
    requires lock' == if th.cpus > 0 then c else if ts[t].cpus > 0 then FREE else lock
    requires th.cpus > 0 && ts[t].cpus == 0 ==> lock == FREE
    ensures Locks(ts[t := th], cur, lock', critical)
  {
    hide NestOk;
    assert NestOk(ts[t]);
  }

  // Nothing about locks changes in a thread
  lemma NestsSame(ts: Threads, cur: seq<Current>, lock: int, critical: Current, t: Tid, th: Thread)
    requires Locks(ts, cur, lock, critical) && t in ts
    requires th.cpus == ts[t].cpus && th.crit == ts[t].crit && NestOk(th)
    ensures Locks(ts[t := th], cur, lock, critical)
  {
    hide NestOk;
  }

  // No CPU but c is inside a locked region
  ghost predicate OthersOut(ts: Threads, cur: seq<Current>, c: nat) {
    forall d :: 0 <= d < |cur| && d != c && cur[d].Is? && cur[d].t in ts ==> ts[cur[d].t].cpus == 0
  }

  lemma OthersAreOut(ts: Threads, cur: seq<Current>, lock: int, c: nat)
    requires LockOk(ts, cur, lock) && (lock == c || lock == FREE)
    ensures OthersOut(ts, cur, c)
  {
  }

  lemma OthersStayOut(ts: Threads, cur: seq<Current>, c: nat, t: Tid, th: Thread)
    requires OthersOut(ts, cur, c) && t in ts && (th.cpus == ts[t].cpus || forall d :: 0 <= d < |cur| && d != c ==>
        cur[d] != Is(t))
    ensures OthersOut(ts[t := th], cur, c)
  {
  }

  // rt_cpus_lock_status_restore: the new thread keeps the lock if it was switched out inside a region
  lemma Restored(ts: Threads, cur: seq<Current>, lock: int, critical: Current, n: nat, c: nat, t: Tid)
    requires NestsOk(ts) && CriticalOk(ts, critical) && c < n && |cur| == n && t in ts
    requires lock == c && OthersOut(ts, cur, c)
    ensures Locks(ts, cur[c := Is(t)], if ts[t].cpus > 0 then c else FREE, critical)
  {
  }

  // ---- steps of one thread ----

  ghost predicate World(ts: Threads, qs: seq<Queue>, cur: seq<Current>, ready: Spots, n: nat, lock: int,
      critical: Current) {
    State(ts, qs, cur, ready, n) && Locks(ts, cur, lock, critical)
  }

  // A thread that is not ready changes, but keeps its CPU and its locks
  lemma Alter(ts: Threads, qs: seq<Queue>, cur: seq<Current>, ready: Spots, n: nat, lock: int, critical: Current,
      t: Tid, th: Thread)
    requires World(ts, qs, cur, ready, n, lock, critical) && t in ts && ts[t].stat != Ready && th.stat != Ready
    requires ThreadOk(th, n) && th.oncpu == ts[t].oncpu && th.cpus == ts[t].cpus && th.crit == ts[t].crit &&
        th.sched == ts[t].sched
    ensures World(ts[t := th], qs, cur, ready, n, lock, critical)
  {
    hide QueuesOk, ThreadOk, LockOk, CriticalOk;
    ThreadChanges(ts, n, t, th);
    StandDown(ts, ready, t, th);
    assert ready - {t} == ready;
    SameCpu(ts, cur, n, t, th);
    assert NestOk(ts[t]);
    NestsSame(ts, cur, lock, critical, t, th);
  }

  // A sleeping thread off its CPU becomes ready
  lemma Wake(ts: Threads, qs: seq<Queue>, cur: seq<Current>, ready: Spots, n: nat, lock: int, critical: Current, t: Tid)
    requires World(ts, qs, cur, ready, n, lock, critical) && t in ts && ts[t].stat == Suspend && !Attached(ts[t])
    ensures t !in ready && ts[t].bind < |qs| && ts[t].prio < |qs[ts[t].bind].lists|
    ensures World(ts[t := ts[t].(stat := Ready)], qs[ts[t].bind := Enqueue(qs[ts[t].bind], t, ts[t].prio, ts[t].mask)],
        cur,
                  ready[t := Spot(ts[t].bind, ts[t].prio)], n, lock, critical)
  {
    var th := ts[t].(stat := Ready);
    assert ThreadOk(ts[t], n) && NestOk(ts[t]);
    assert QueueOk(qs[th.bind], th.bind, ready);
    hide QueueOk, Mask, Enqueue, LockOk, CriticalOk;
    EnqueueOk(qs, ready, n, t, th.bind, th.prio);
    hide QueuesOk;
    ThreadChanges(ts, n, t, th);
    StandUp(ts, ready, t, th);
    SameCpu(ts, cur, n, t, th);
    NestsSame(ts, cur, lock, critical, t, th);
  }

  // A ready thread falls asleep
  lemma Rest(ts: Threads, qs: seq<Queue>, cur: seq<Current>, ready: Spots, n: nat, lock: int, critical: Current, t: Tid)
    requires World(ts, qs, cur, ready, n, lock, critical) && t in ts && ts[t].stat == Ready
    ensures t in ready && ts[t].bind < |qs| && ts[t].prio < |qs[ts[t].bind].lists| && !Attached(ts[t])
    ensures World(ts[t := ts[t].(stat := Suspend)], qs[ts[t].bind :=
        Dequeue(qs[ts[t].bind], t, ts[t].prio, ts[t].mask)], cur,
                  ready - {t}, n, lock, critical)
  {
    var th := ts[t].(stat := Suspend);
    assert ThreadOk(ts[t], n) && NestOk(ts[t]);
    assert QueueOk(qs[th.bind], th.bind, ready);
    hide QueueOk, Mask, Dequeue, LockOk, CriticalOk;
    DequeueOk(qs, ready, n, t, th.bind, th.prio);
    hide QueuesOk;
    ThreadChanges(ts, n, t, th);
    StandDown(ts, ready, t, th);
    SameCpu(ts, cur, n, t, th);
    NestsSame(ts, cur, lock, critical, t, th);
  }

  // rt_schedule_remove_thread does nothing to a started thread that is not ready
  lemma NotQueued(ts: Threads, qs: seq<Queue>, cur: seq<Current>, ready: Spots, n: nat, t: Tid)
    requires State(ts, qs, cur, ready, n) && t in ts && ts[t].stat != Ready && ts[t].stat != Init
    ensures t !in ready && ts[t].bind < |qs| && ts[t].prio < |qs[ts[t].bind].lists|
    ensures qs[ts[t].bind := Dequeue(qs[ts[t].bind], t, ts[t].prio, ts[t].mask)] == qs
  {
    var th := ts[t];
    assert ThreadOk(ts[t], n);
    assert QueueOk(qs[th.bind], th.bind, ready);
    hide QueueOk, Mask, Dequeue;
    DequeueNone(qs, ready, n, t, th.bind, th.prio);
  }

  lemma ThreadFacts(ts: Threads, qs: seq<Queue>, cur: seq<Current>, ready: Spots, n: nat, lock: int, critical: Current,
      t: Tid)
    requires World(ts, qs, cur, ready, n, lock, critical) && t in ts
    ensures ThreadOk(ts[t], n) && NestOk(ts[t]) && (t in ready <==> ts[t].stat == Ready)
    ensures ts[t].bind < |qs| && |qs[ts[t].bind].lists| == PRIORITIES && |qs| == n + 1 && |cur| == n
    ensures t in ready ==> ready[t] == Spot(ts[t].bind, ts[t].prio)
  {
    assert ThreadOk(ts[t], n) && NestOk(ts[t]);
    assert QueueOk(qs[ts[t].bind], ts[t].bind, ready);
  }

  lemma NotQueuedWorld(ts: Threads, qs: seq<Queue>, cur: seq<Current>, ready: Spots, n: nat, lock: int,
      critical: Current, t: Tid)
    requires World(ts, qs, cur, ready, n, lock, critical) && t in ts && ts[t].stat != Ready && ts[t].stat != Init
    ensures t !in ready && ts[t].bind < |qs| && ts[t].prio < |qs[ts[t].bind].lists|
    ensures qs[ts[t].bind := Dequeue(qs[ts[t].bind], t, ts[t].prio, ts[t].mask)] == qs
  {
    NotQueued(ts, qs, cur, ready, n, t);
  }

  lemma OnIsNotReady(ts: Threads, qs: seq<Queue>, cur: seq<Current>, ready: Spots, n: nat, lock: int, critical: Current,
      c: nat, t: Tid)
    requires World(ts, qs, cur, ready, n, lock, critical) && c < n && c < |cur| && cur[c] == Is(t) && t in ts
    ensures ts[t].oncpu == c && ts[t].stat != Ready && ts[t].stat != Init && t !in ready
  {
    assert ThreadOk(ts[t], n);
  }

  lemma Created(ts: Threads, qs: seq<Queue>, cur: seq<Current>, ready: Spots, n: nat, lock: int, critical: Current,
      t: Tid, p: nat)
    requires World(ts, qs, cur, ready, n, lock, critical) && t !in ts && critical != Is(t) && p < PRIORITIES
    ensures World(ts[t := Thread(Init, false, p, p, 0, n, DETACHED, 0, 0, 0)], qs, cur, ready, n, lock, critical)
  {
    hide QueuesOk, ThreadsOk, NestsOk, CriticalOk, Standing, OnCpus, LockOk;
    var th := Thread(Init, false, p, p, 0, n, DETACHED, 0, 0, 0);
    FreshOk(n, p);
    NewThread(ts, n, critical, t, th);
    NewElsewhere(ts, cur, ready, n, lock, t, th);
  }

  lemma FreshOk(n: nat, p: nat)
    requires p < PRIORITIES
    ensures ThreadOk(Thread(Init, false, p, p, 0, n, DETACHED, 0, 0, 0), n) &&
        NestOk(Thread(Init, false, p, p, 0, n, DETACHED, 0, 0, 0))
  {
  }

  lemma NewElsewhere(ts: Threads, cur: seq<Current>, ready: Spots, n: nat, lock: int, t: Tid, th: Thread)
    requires Standing(ts, ready) && OnCpus(ts, cur, n) && LockOk(ts, cur, lock) && t !in ts && 0 < n < DETACHED
    requires th.stat == Init && th.oncpu == DETACHED
    ensures Standing(ts[t := th], ready) && OnCpus(ts[t := th], cur, n) && LockOk(ts[t := th], cur, lock)
  {
    assert forall c :: 0 <= c < n && cur[c].Is? ==> cur[c].t != t;
  }

  lemma NewThread(ts: Threads, n: nat, critical: Current, t: Tid, th: Thread)
    requires ThreadsOk(ts, n) && NestsOk(ts) && CriticalOk(ts, critical) && critical != Is(t)
    requires ThreadOk(th, n) && NestOk(th) && th.crit == 0
    ensures ThreadsOk(ts[t := th], n) && NestsOk(ts[t := th]) && CriticalOk(ts[t := th], critical)
  {
    hide ThreadOk, NestOk;
  }

  // What the two groups say about the threads a CPU may take
  lemma FirstTwo(ts: Threads, qs: seq<Queue>, cur: seq<Current>, ready: Spots, n: nat, lock: int, critical: Current,
      c: nat)
    requires World(ts, qs, cur, ready, n, lock, critical) && c < n
    ensures |qs| == n + 1 && Foremost(qs[n], n, ready) && Foremost(qs[c], c, ready)
    ensures forall x :: x in ready ==> ready[x].prio < PRIORITIES
  {
    hide QueueOk, Ffs;
    FirstInQueue(qs[n], n, ready);
    FirstInQueue(qs[c], c, ready);
  }

  ghost predicate Foremost(q: Queue, b: nat, ready: Spots) {
    && (Ffs(q.group) == 0 <==> q.group == 0)
    && (Ffs(q.group) == 0 ==> forall x :: x in ready && ready[x].prio < PRIORITIES ==> ready[x].bind != b)
    && (Ffs(q.group) > 0 ==>
          var p := Ffs(q.group) - 1;
          && p < PRIORITIES && |q.lists| == PRIORITIES && q.lists[p] != [] && q.lists[p][0] in ready &&
              ready[q.lists[p][0]] == Spot(b, p)
          && (forall x :: x in ready && ready[x].prio < PRIORITIES && ready[x].bind == b ==> p <= ready[x].prio))
  }

  // The comparison of _get_highest_priority_thread
  lemma Choose(global: Queue, own: Queue, ready: Spots, n: nat, c: nat, g: nat, o: nat)
    requires Foremost(global, n, ready) && Foremost(own, c, ready) && c < n && (global.group != 0 || own.group != 0)
    requires g == Ffs(global.group) && o == Ffs(own.group) && forall x :: x in ready ==> ready[x].prio < PRIORITIES
    ensures g != 0 || o != 0
    ensures g != 0 && (o == 0 || g < o) ==>
              && g - 1 < PRIORITIES == |global.lists| && global.lists[g - 1] != []
              && Best(ready, n, c, global.lists[g - 1][0]) && ready[global.lists[g - 1][0]] == Spot(n, g - 1)
              && (forall x :: x in ready && ready[x].bind == c ==> g - 1 < ready[x].prio)
    ensures !(g != 0 && (o == 0 || g < o)) ==>
              && o != 0 && o - 1 < PRIORITIES == |own.lists| && own.lists[o - 1] != []
              && Best(ready, n, c, own.lists[o - 1][0]) && ready[own.lists[o - 1][0]] == Spot(c, o - 1)
  {
    hide Ffs;
  }

  lemma NestsKeep(ts: Threads, critical: Current, t: Tid, th: Thread)
    requires NestsOk(ts) && CriticalOk(ts, critical) && t in ts && NestOk(th) && th.crit == ts[t].crit
    ensures NestsOk(ts[t := th]) && CriticalOk(ts[t := th], critical)
  {
    hide NestOk;
  }

  lemma UrgentStays(ts: Threads, ready: Spots, n: nat, c: nat, t: Tid, th: Thread)
    requires t in ts && Urgent(ts, ready, n, c, t) && th.prio == ts[t].prio
    ensures Urgent(ts[t := th], ready, n, c, t)
  {
  }

  // t is at least as urgent as every thread that CPU c may take
  ghost predicate Urgent(ts: Threads, ready: Spots, n: nat, c: nat, t: Tid) {
    t in ts && forall x :: Visible(ready, n, c, x) ==> ts[t].prio <= ready[x].prio
  }

  /** The state in the middle of a switch, when c has given up its thread for `to` and current_thread still
      says otherwise: everything is in place for current_thread := to. */
  ghost predicate Switching(ts: Threads, qs: seq<Queue>, cur: seq<Current>, ready: Spots, n: nat, critical: Current,
      c: nat, to: Tid) {
    && c < |cur| && State(ts, qs, cur[c := Is(to)], ready, n) && NestsOk(ts) && CriticalOk(ts, critical) &&
        OthersOut(ts, cur, c)
    && to in ts && ts[to].stat == Running
  }

  // c gives up thread t, ready or asleep
  lemma GiveUpReady(ts: Threads, qs: seq<Queue>, cur: seq<Current>, ready: Spots, n: nat, lock: int, critical: Current,
      c: nat, t: Tid)
    requires World(ts, qs, cur, ready, n, lock, critical) && c < n && c < |cur| && cur[c] == Is(t) && t in ts &&
        ts[t].stat == Running
    requires ts[t].sched == 1 && ts[t].cpus > 0
    ensures t !in ready && ts[t].bind < |qs| && ts[t].prio < |qs[ts[t].bind].lists|
    ensures var th := ts[t].(stat := Ready, yielding := false, oncpu := DETACHED);
            && State(ts[t := th], qs[th.bind := Enqueue(qs[th.bind], t, th.prio, th.mask)], cur[c := Nobody],
                     ready[t := Spot(th.bind, th.prio)], n)
            && NestsOk(ts[t := th]) && CriticalOk(ts[t := th], critical)
            && (lock == c ==> OthersOut(ts[t := th], cur, c))
  {
    assert NestOk(ts[t]);
    LeaveReady(ts, qs, cur, ready, n, c, t);
    hide State, NestsOk, CriticalOk, LockOk, OthersOut, Enqueue;
    var th := ts[t].(stat := Ready, yielding := false, oncpu := DETACHED);
    NestsKeep(ts, critical, t, th);
    if lock == c {
      OthersAreOut(ts, cur, lock, c);
      OthersStayOut(ts, cur, c, t, th);
    }
  }

  lemma GiveUpAsleep(ts: Threads, qs: seq<Queue>, cur: seq<Current>, ready: Spots, n: nat, lock: int, critical: Current,
      c: nat, t: Tid)
    requires World(ts, qs, cur, ready, n, lock, critical) && c < n && c < |cur| && cur[c] == Is(t) && t in ts &&
        ts[t].stat != Running
    requires ts[t].sched == 1 && ts[t].cpus > 0
    ensures t !in ready
    ensures var th := ts[t].(oncpu := DETACHED);
            && State(ts[t := th], qs, cur[c := Nobody], ready, n)
            && NestsOk(ts[t := th]) && CriticalOk(ts[t := th], critical)
            && (lock == c ==> OthersOut(ts[t := th], cur, c))
  {
    assert NestOk(ts[t]);
    LeaveAsleep(ts, qs, cur, ready, n, c, t);
    hide State, NestsOk, CriticalOk, LockOk, OthersOut;
    var th := ts[t].(oncpu := DETACHED);
    NestsKeep(ts, critical, t, th);
    if lock == c {
      OthersAreOut(ts, cur, lock, c);
      OthersStayOut(ts, cur, c, t, th);
    }
  }

  // Between giving up one thread and taking the next
  ghost predicate Between(ts: Threads, qs: seq<Queue>, cur: seq<Current>, ready: Spots, n: nat, critical: Current,
      c: nat) {
    c < |cur| && State(ts, qs, cur[c := Nobody], ready, n) && NestsOk(ts) && CriticalOk(ts, critical) &&
        OthersOut(ts, cur, c)
  }

  // c takes the ready thread `to`
  lemma TakeOver(ts: Threads, qs: seq<Queue>, cur: seq<Current>, ready: Spots, n: nat, critical: Current, c: nat,
      to: Tid)
    requires c < n && c < |cur| && State(ts, qs, cur[c := Nobody], ready, n) && NestsOk(ts) && CriticalOk(ts, critical)
    requires OthersOut(ts, cur, c) && Visible(ready, n, c, to)
    ensures to in ts && ts[to].stat == Ready && ts[to].bind < |qs| && ts[to].prio < |qs[ts[to].bind].lists| &&
        ready[to] == Spot(ts[to].bind, ts[to].prio)
    ensures Switching(ts[to := ts[to].(stat := Running, oncpu := c)],
                      qs[ts[to].bind := Dequeue(qs[ts[to].bind], to, ts[to].prio, ts[to].mask)], cur, ready - {to}, n,
                          critical, c, to)
  {
    Take(ts, qs, cur[c := Nobody], ready, n, c, to);
    assert cur[c := Nobody][c := Is(to)] == cur[c := Is(to)];
    assert ThreadOk(ts[to], n) && NestOk(ts[to]);
    hide State, NestsOk, CriticalOk, OthersOut, Dequeue;
    NestsKeep(ts, critical, to, ts[to].(stat := Running, oncpu := c));
    OthersStayOut(ts, cur, c, to, ts[to].(stat := Running, oncpu := c));
  }

  /** current_thread := to, and the lock goes on or off as `to` needs. */
  lemma SwitchEnds(ts: Threads, qs: seq<Queue>, cur: seq<Current>, ready: Spots, n: nat, lock: int, critical: Current,
      c: nat, to: Tid)
    requires Switching(ts, qs, cur, ready, n, critical, c, to) && c < n && lock == c
    ensures World(ts, qs, cur[c := Is(to)], ready, n, if ts[to].cpus > 0 then c else FREE, critical)
  {
    hide QueuesOk, ThreadsOk, Standing, NestsOk, CriticalOk, OthersOut;
    Restored(ts, cur, lock, critical, n, c, to);
  }

  lemma BestMeans(ready: Spots, n: nat, c: nat, t: Tid)
    requires Best(ready, n, c, t)
    ensures Visible(ready, n, c, t) && forall x :: Visible(ready, n, c, x) ==> ready[t].prio <= ready[x].prio
  {
  }

  lemma CurrentKnown(ts: Threads, qs: seq<Queue>, cur: seq<Current>, ready: Spots, n: nat, lock: int, critical: Current,
      c: nat)
    requires World(ts, qs, cur, ready, n, lock, critical) && c < n
    ensures |cur| == n && (cur[c].Is? ==> cur[c].t in ts && ts[cur[c].t].oncpu == c)
  {
  }

  // rt_cpus_lock and rt_cpus_unlock of a thread
  function Locked(th: Thread): Thread {
    th.(cpus := th.cpus + 1, sched := if th.cpus == 0 then th.sched + 1 else th.sched)
  }

  function Unlocked(th: Thread): Thread
    requires th.cpus > 0
  {
    th.(cpus := th.cpus - 1, sched := if th.cpus == 1 then th.sched - 1 else th.sched)
  }

  // The current thread of c changes its nests only
  lemma StateSame(ts: Threads, qs: seq<Queue>, cur: seq<Current>, ready: Spots, n: nat, c: nat, t: Tid, th: Thread)
    requires State(ts, qs, cur, ready, n) && c < n && c < |cur| && cur[c] == Is(t) && t in ts
    requires th == ts[t].(cpus := th.cpus, sched := th.sched, crit := th.crit)
    ensures State(ts[t := th], qs, cur, ready, n)
  {
    assert ThreadOk(ts[t], n);
    hide QueuesOk;
    ThreadChanges(ts, n, t, th);
    StandDown(ts, ready, t, th);
    assert ready - {t} == ready;
    SameCpu(ts, cur, n, t, th);
  }

  lemma NestWorld(ts: Threads, qs: seq<Queue>, cur: seq<Current>, ready: Spots, n: nat, lock: int, critical: Current,
      c: nat, t: Tid,
                  th: Thread, lock': int)
    requires World(ts, qs, cur, ready, n, lock, critical) && c < n && c < |cur| && cur[c] == Is(t) && t in ts
    requires th == ts[t].(cpus := th.cpus, sched := th.sched) && NestOk(th)
    requires lock' == if th.cpus > 0 then c else if ts[t].cpus > 0 then FREE else lock
    requires th.cpus > 0 && ts[t].cpus == 0 ==> lock == FREE
    ensures World(ts[t := th], qs, cur, ready, n, lock', critical)
  {
    hide QueuesOk, ThreadsOk, Standing, Locks, NestOk;
    StateSame(ts, qs, cur, ready, n, c, t, th);
    NestChanges(ts, cur, lock, critical, n, c, t, th, lock');
  }

  lemma LockMore(ts: Threads, qs: seq<Queue>, cur: seq<Current>, ready: Spots, n: nat, lock: int, critical: Current,
      c: nat, t: Tid)
    requires World(ts, qs, cur, ready, n, lock, critical) && c < n && c < |cur| && cur[c] == Is(t) && t in ts &&
        (lock == FREE || lock == c)
    ensures World(ts[t := Locked(ts[t])], qs, cur, ready, n, c, critical) && (ts[t].cpus > 0 ==> lock == c)
  {
    assert NestOk(ts[t]);
    OnIsNotReady(ts, qs, cur, ready, n, lock, critical, c, t);
    assert ts[t].cpus > 0 <==> lock == c;
    hide World;
    NestWorld(ts, qs, cur, ready, n, lock, critical, c, t, Locked(ts[t]), c);
  }

  lemma LockLess(ts: Threads, qs: seq<Queue>, cur: seq<Current>, ready: Spots, n: nat, lock: int, critical: Current,
      c: nat, t: Tid)
    requires World(ts, qs, cur, ready, n, lock, critical) && c < n && c < |cur| && cur[c] == Is(t) && t in ts &&
        ts[t].cpus > 0
    ensures lock == c
    ensures World(ts[t := Unlocked(ts[t])], qs, cur, ready, n, if ts[t].cpus == 1 then FREE else lock, critical)
  {
    assert NestOk(ts[t]);
    OnIsNotReady(ts, qs, cur, ready, n, lock, critical, c, t);
    assert ts[t].cpus > 0 <==> lock == c;
    hide World;
    NestWorld(ts, qs, cur, ready, n, lock, critical, c, t, Unlocked(ts[t]), if ts[t].cpus == 1 then FREE else lock);
  }

  lemma SchedMoves(ts: Threads, qs: seq<Queue>, cur: seq<Current>, ready: Spots, n: nat, lock: int, critical: Current,
      c: nat, t: Tid, s: int)
    requires World(ts, qs, cur, ready, n, lock, critical) && c < n && c < |cur| && cur[c] == Is(t) && t in ts
    requires s >= ts[t].sched || s >= ts[t].crit + One(ts[t].cpus > 0)
    ensures World(ts[t := ts[t].(sched := s)], qs, cur, ready, n, lock, critical)
  {
    assert NestOk(ts[t]);
    OnIsNotReady(ts, qs, cur, ready, n, lock, critical, c, t);
    assert ts[t].cpus > 0 <==> lock == c;
    hide World;
    NestWorld(ts, qs, cur, ready, n, lock, critical, c, t, ts[t].(sched := s), lock);
  }

  lemma CritMore(ts: Threads, qs: seq<Queue>, cur: seq<Current>, ready: Spots, n: nat, lock: int, critical: Current,
      c: nat, t: Tid)
    requires World(ts, qs, cur, ready, n, lock, critical) && c < n && c < |cur| && cur[c] == Is(t) && t in ts
    requires critical == Nobody || critical == Is(t)
    ensures World(ts[t := ts[t].(sched := ts[t].sched + 1, crit := ts[t].crit + 1)], qs, cur, ready, n, lock, Is(t))
    ensures ts[t].crit > 0 <==> critical == Is(t)
  {
    hide State, LockOk, NestsOk;
    CurrentNests(ts, qs, cur, ready, n, lock, critical, c, t);
    var th := ts[t].(sched := ts[t].sched + 1, crit := ts[t].crit + 1);
    CritLocks(ts, cur, lock, critical, Is(t), t, th);
    StateSame(ts, qs, cur, ready, n, c, t, th);
  }

  lemma CritLess(ts: Threads, qs: seq<Queue>, cur: seq<Current>, ready: Spots, n: nat, lock: int, critical: Current,
      c: nat, t: Tid)
    requires World(ts, qs, cur, ready, n, lock, critical) && c < n && c < |cur| && cur[c] == Is(t) && t in ts &&
        ts[t].crit > 0
    ensures critical == Is(t) && ts[t].sched > 0
    ensures World(ts[t := ts[t].(sched := ts[t].sched - 1, crit := ts[t].crit - 1)], qs, cur, ready, n, lock,
                  if ts[t].crit == 1 then Nobody else Is(t))
  {
    hide State, LockOk, NestsOk;
    CurrentNests(ts, qs, cur, ready, n, lock, critical, c, t);
    var th := ts[t].(sched := ts[t].sched - 1, crit := ts[t].crit - 1);
    CritLocks(ts, cur, lock, critical, if ts[t].crit == 1 then Nobody else Is(t), t, th);
    StateSame(ts, qs, cur, ready, n, c, t, th);
  }

  lemma CurrentNests(ts: Threads, qs: seq<Queue>, cur: seq<Current>, ready: Spots, n: nat, lock: int, critical: Current,
      c: nat, t: Tid)
    requires World(ts, qs, cur, ready, n, lock, critical) && c < n && c < |cur| && cur[c] == Is(t) && t in ts
    ensures ts[t].oncpu == c && c != DETACHED && NestOk(ts[t])
  {
  }

  lemma CritLocks(ts: Threads, cur: seq<Current>, lock: int, critical: Current, critical': Current, t: Tid, th: Thread)
    requires Locks(ts, cur, lock, critical) && t in ts && NestOk(th) && th.cpus == ts[t].cpus
    requires (critical == Nobody || critical == Is(t)) && critical' == if th.crit > 0 then Is(t) else Nobody
    ensures Locks(ts[t := th], cur, lock, critical')
  {
    hide NestOk;
  }

  // No lock but the scheduler's own keeps the thread on its CPU
  ghost predicate Preemptible(th: Thread) {
    th.sched == One(th.cpus > 0)
  }

  // The thread after a switch away from it
  function Given(th: Thread): Thread {
    if th.stat == Running then th.(stat := Ready, yielding := false, oncpu := DETACHED) else th.(oncpu := DETACHED)
  }

  /** A thread that could run on is ready again, and its slice counts anew; any other is only off its CPU. */
  lemma GivenMeans(th: Thread)
    ensures th.stat == Running ==>
              var g := Given(th); g.stat == Ready && !g.yielding && g.oncpu == DETACHED && g.(stat := Running,
                  yielding := th.yielding, oncpu := th.oncpu) == th
    ensures th.stat != Running ==> Given(th).oncpu == DETACHED && Given(th).(oncpu := th.oncpu) == th
  {
  }

  // A running thread is not replaced: nobody is more urgent, nor as urgent when its slice is over
  ghost predicate GoesOn(th: Thread, ready: Spots, n: nat, c: nat) {
    th.stat == Running && forall x :: Visible(ready, n, c, x) ==>
        th.prio < ready[x].prio || (th.prio == ready[x].prio && !th.yielding)
  }

  lemma GoesOnMeans(ts: Threads, ready: Spots, n: nat, c: nat, t: Tid, h: Tid)
    requires t in ts && Best(ready, n, c, h)
    ensures GoesOn(ts[t], ready, n, c) <==>
              ts[t].stat == Running && (ts[t].prio < ready[h].prio || (ts[t].prio == ready[h].prio && !ts[t].yielding))
    ensures GoesOn(ts[t], ready, n, c) ==> Urgent(ts, ready, n, c, t)
  {
  }

  lemma SizesKnown(ts: Threads, qs: seq<Queue>, cur: seq<Current>, ready: Spots, n: nat, lock: int, critical: Current)
    requires World(ts, qs, cur, ready, n, lock, critical)
    ensures |qs| == n + 1 && |cur| == n && 0 < n < DETACHED
  {
  }

  // After the switch nobody in the queues is more urgent, not even the thread that was put back
  lemma UrgentAfter(rd: Spots, ready: Spots, ts: Threads, n: nat, c: nat, t: Tid, to: Tid, th: Thread)
    requires Best(rd, n, c, to) && to in ts && ts[to].prio == rd[to].prio && t !in rd
    requires ready == (if th.stat == Running then rd[t := Spot(th.bind, th.prio)] else rd) - {to}
    requires th.stat == Running ==> rd[to].prio <= th.prio
    ensures Urgent(ts, ready, n, c, to)
  {
  }

  lemma NobodyVisible(ts: Threads, qs: seq<Queue>, cur: seq<Current>, ready: Spots, n: nat, lock: int,
      critical: Current, c: nat, t: Tid)
    requires World(ts, qs, cur, ready, n, lock, critical) && c < n && t in ts && |qs| == n + 1 && qs[n].group == 0 &&
        qs[c].group == 0
    ensures Urgent(ts, ready, n, c, t) && !exists x :: Visible(ready, n, c, x)
  {
    FirstTwo(ts, qs, cur, ready, n, lock, critical, c);
    hide World, Ffs;
  }

  lemma SwitchRuns(ts: Threads, qs: seq<Queue>, cur: seq<Current>, ready: Spots, n: nat, critical: Current, c: nat,
      to: Tid)
    requires Switching(ts, qs, cur, ready, n, critical, c, to)
    ensures to in ts && ts[to].stat == Running
  {
  }

  // Taking the lock and giving it back
  lemma LockUnlock(ts: Threads, t: Tid, ready: Spots, n: nat, c: nat)
    requires t in ts
    ensures Unlocked(Locked(ts[t])) == ts[t] && ts[t := Locked(ts[t])][t := Unlocked(Locked(ts[t]))] == ts
    ensures Preemptible(ts[t]) <==> Locked(ts[t]).sched == 1
    ensures GoesOn(Locked(ts[t]), ready, n, c) <==> GoesOn(ts[t], ready, n, c)
  {
    assert Unlocked(Locked(ts[t])) == ts[t];
  }

  // Both nests of a thread go down that was switched out in an interrupt
  lemma Released(ts: Threads, qs: seq<Queue>, cur: seq<Current>, ready: Spots, n: nat, critical: Current, c: nat,
      to: Tid, t: Tid, th: Thread)
    requires Switching(ts, qs, cur, ready, n, critical, c, to) && t in ts && t != to && c < n && cur[c] == Is(t)
    requires ts[t].oncpu == DETACHED && ts[t].cpus == 1 && th == ts[t].(cpus := 0, sched := ts[t].sched - 1)
    ensures Switching(ts[t := th], qs, cur, ready, n, critical, c, to)
  {
    assert ThreadOk(ts[t], n) && NestOk(ts[t]);
    assert NestOk(th);
    assert forall d :: 0 <= d < |cur| && d != c ==> cur[d] != Is(t) by {
      assert forall d :: 0 <= d < |cur| && d != c ==> cur[c := Is(to)][d] == cur[d];
    }
    hide QueuesOk;
    ReleasedState(ts, qs, cur[c := Is(to)], ready, n, t, th);
    hide State, ThreadOk, NestOk;
    NestsKeep(ts, critical, t, th);
    OthersStayOut(ts, cur, c, t, th);
  }

  lemma ReleasedState(ts: Threads, qs: seq<Queue>, cur: seq<Current>, ready: Spots, n: nat, t: Tid, th: Thread)
    requires State(ts, qs, cur, ready, n) && t in ts && th == ts[t].(cpus := th.cpus, sched := th.sched)
    ensures State(ts[t := th], qs, cur, ready, n)
  {
    assert ThreadOk(ts[t], n);
    hide QueuesOk, Standing, OnCpus, ThreadsOk;
    ThreadChanges(ts, n, t, th);
    StandsAlike(ts, ready, t, th);
    SameCpu(ts, cur, n, t, th);
  }

  lemma StandsAlike(ts: Threads, ready: Spots, t: Tid, th: Thread)
    requires Standing(ts, ready) && t in ts && th.stat == ts[t].stat && th.bind == ts[t].bind && th.prio == ts[t].prio
    ensures Standing(ts[t := th], ready)
  {
  }

  // A CPU without a thread may take one
  lemma Idle(ts: Threads, qs: seq<Queue>, cur: seq<Current>, ready: Spots, n: nat, lock: int, critical: Current, c: nat)
    requires World(ts, qs, cur, ready, n, lock, critical) && c < n && c < |cur| && cur[c] == Nobody && lock == FREE
    ensures Between(ts, qs, cur, ready, n, critical, c) && |cur| == n
  {
    assert cur[c := Nobody] == cur;
    OthersAreOut(ts, cur, lock, c);
  }

  lemma BestVisible(ready: Spots, n: nat, c: nat, t: Tid)
    requires Best(ready, n, c, t)
    ensures Visible(ready, n, c, t)
  {
  }

  lemma UrgentLess(rd: Spots, ready: Spots, ts: Threads, n: nat, c: nat, to: Tid)
    requires Best(rd, n, c, to) && to in ts && ts[to].prio == rd[to].prio && ready == rd - {to}
    ensures Urgent(ts, ready, n, c, to)
  {
  }

  /** What rt_schedule and rt_scheduler_do_irq_switch leave behind on a CPU that may switch: `th` is the thread it
      ran, `rd` the ready threads before. */
  ghost predicate Scheduled(ts: Threads, ready: Spots, n: nat, c: nat, to: Tid, t: Tid, th: Thread, rd: Spots) {
    && Urgent(ts, ready, n, c, to)
    && ((exists x :: Visible(rd, n, c, x)) ==>
        to in ts && ts[to].stat == Running && (to == t <==> GoesOn(th, rd, n, c)))
    && (to != t ==> Best(rd, n, c, to))
  }

  /** That is: nobody whom the CPU may take is more urgent; a thread is replaced if it cannot run on, if somebody is
      more urgent, or as urgent and its slice is over, and then by one of the most urgent. */
  lemma ScheduledMeans(ts: Threads, ready: Spots, n: nat, c: nat, to: Tid, t: Tid, th: Thread, rd: Spots)
    requires Scheduled(ts, ready, n, c, to, t, th, rd)
    ensures to in ts && forall x :: x in ready && ready[x].bind in {n, c} ==> ts[to].prio <= ready[x].prio
    ensures to != t ==> to in rd && rd[to].bind in {n, c} &&
                        forall x :: x in rd && rd[x].bind in {n, c} ==> rd[to].prio <= rd[x].prio
    ensures forall x :: x in rd && rd[x].bind in {n, c} ==>
              (th.stat != Running || rd[x].prio < th.prio || (rd[x].prio == th.prio && th.yielding) ==> to != t)
    ensures th.stat == Running && to != t ==>
              rd[to].prio < th.prio || (rd[to].prio == th.prio && th.yielding) || !exists x :: Visible(rd, n, c, x)
  {
    assert forall r: Spots, x :: x in r && r[x].bind in {n, c} ==> Visible(r, n, c, x);
    if to != t {
      assert Best(rd, n, c, to);
      assert Visible(rd, n, c, to);
    }
  }

  // Changes of the nests do not matter
  lemma ScheduledLocked(ts: Threads, ready: Spots, n: nat, c: nat, to: Tid, t: Tid, th: Thread, rd: Spots, x: Thread)
    requires Scheduled(ts, ready, n, c, to, t, Locked(th), rd) && t in ts
    requires to != t || (x.prio == ts[t].prio && x.stat == ts[t].stat)
    ensures Scheduled(ts, ready, n, c, to, t, th, rd)
    ensures Scheduled(ts[t := x], ready, n, c, to, t, th, rd)
  {
    hide Visible;
  }
}
