/** Waiting for things that can be taken by somebody else before the waiter runs again: the scheme shared by
    mailboxes, message queues (rt-thread/src/ipc.c) and memory pools (rt-thread/src/mempool.c). A thread that was
    resumed because something became available is `woken` until it runs and looks again. */
module Wakeup {
  import opened Sequences
  import opened WaitList

  // What one locked region of a blocking call comes to
  datatype Outcome = Finished | Failed(e: Err) | Waits

  /** No wake-up is lost: while somebody sleeps, every available thing has a woken thread coming for it. */
  ghost predicate NoLost(list: seq<Tid>, available: int, woken: set<Tid>) {
    list == [] || available <= |woken|
  }

  // Sleeping and woken threads on one side of the object
  ghost predicate Side(list: seq<Tid>, woken: set<Tid>) {
    Distinct(list) && forall t :: t in list ==> t !in woken
  }

  ghost predicate Away(t: Tid, list: seq<Tid>, woken: set<Tid>) {
    t !in list && t !in woken
  }

  // A thread sleeps or is woken on one side at most, and does not at the same time fail
  ghost predicate OnePlace(r: seq<Tid>, wr: set<Tid>, s: seq<Tid>, ws: set<Tid>, failed: set<Tid>) {
    && (forall t :: t in r || t in wr ==> Away(t, s, ws) && t !in failed)
    && (forall t :: t in s || t in ws ==> t !in failed)
  }

  ghost predicate Errors(r: seq<Tid>, wr: set<Tid>, s: seq<Tid>, ws: set<Tid>, failed: set<Tid>, error: map<Tid, Err>) {
    && (forall t :: t in r || t in wr || t in s || t in ws ==> t in error && error[t] == EOK)
    && (forall t :: t in failed ==> t in error && error[t] != EOK)
  }

  /** Two kinds of waiters, r for `ar` available things and s for `a2` others, and their fates. */
  ghost predicate Waiters(r: seq<Tid>, wr: set<Tid>, ar: int, s: seq<Tid>, ws: set<Tid>, a2: int,
                          failed: set<Tid>, error: map<Tid, Err>) {
    && Side(r, wr) && Side(s, ws) && OnePlace(r, wr, s, ws, failed) && Errors(r, wr, s, ws, failed, error)
    && NoLost(r, ar, wr) && NoLost(s, a2, ws)
  }

  lemma Swap(r: seq<Tid>, wr: set<Tid>, ar: int, s: seq<Tid>, ws: set<Tid>, a2: int, failed: set<Tid>,
      error: map<Tid, Err>)
    requires Waiters(r, wr, ar, s, ws, a2, failed, error)
    ensures Waiters(s, ws, a2, r, wr, ar, failed, error)
  {
    hide NoLost, Side;
  }

  // ---- one side ----

  lemma CardAdd(w: set<Tid>, t: Tid)
    ensures |w + {t}| == |w| + (if t in w then 0 else 1)
  {
    if t in w {
      assert w + {t} == w;
    }
  }

  lemma CardRemove(w: set<Tid>, t: Tid)
    ensures |w - {t}| == |w| - (if t in w then 1 else 0)
  {
    if t !in w {
      assert w - {t} == w;
    }
  }

  /** Something becomes available and the first sleeper, if any, is woken for it. */
  lemma PutKeeps(list: seq<Tid>, available: int, woken: set<Tid>)
    requires NoLost(list, available, woken) && Side(list, woken)
    ensures list != [] ==> Side(list[1..], woken + {list[0]}) && NoLost(list[1..], available + 1, woken + {list[0]})
    ensures list != [] ==> forall x :: x in list[1..] <==> x in list && x != list[0]
    ensures list == [] ==> NoLost(list, available + 1, woken)
  {
    if list != [] {
      DistinctTail(list);
      CardAdd(woken, list[0]);
    }
  }

  /** Something is taken, by a woken thread or by one that comes in between. */
  lemma TakeKeeps(list: seq<Tid>, available: int, woken: set<Tid>, t: Tid)
    requires NoLost(list, available, woken) && Side(list, woken)
    ensures Side(list, woken - {t}) && NoLost(list, available - 1, woken - {t})
  {
    CardRemove(woken, t);
  }

  /** Nothing is there: the thread goes back to sleep, or gives up. */
  lemma NothingKeeps(list: seq<Tid>, list': seq<Tid>, k: nat, woken: set<Tid>, t: Tid)
    requires Side(list, woken) && t !in list && InsertedAt(list, list', k, t)
    ensures Side(list, woken - {t}) && Side(list', woken - {t})
    ensures NoLost(list, 0, woken - {t}) && NoLost(list', 0, woken - {t})
    ensures forall x :: x in list' <==> x in list || x == t
  {
    InsertedDistinct(list, list', k, t);
  }

  /** A sleeper times out. */
  lemma LeaveKeeps(list: seq<Tid>, available: int, woken: set<Tid>, t: Tid)
    requires NoLost(list, available, woken) && Side(list, woken) && t in list
    ensures Side(Without(list, t), woken) && NoLost(Without(list, t), available, woken)
    ensures forall x :: x in Without(list, t) <==> x in list && x != t
    ensures |Without(list, t)| < |list| && t !in woken
  {
    WithoutMembers(list, t);
  }

  // ---- both sides ----

  // The sleepers and the woken threads after the first sleeper, if any, was resumed
  ghost function Rest(list: seq<Tid>): seq<Tid> {
    if list == [] then [] else list[1..]
  }

  ghost function Up(list: seq<Tid>, woken: set<Tid>): set<Tid> {
    if list == [] then woken else woken + {list[0]}
  }

  /** The one that is resumed is the first, and the others keep their order. */
  lemma FirstUp(t: Tid, list: seq<Tid>, woken: set<Tid>)
    ensures Rest([t] + list) == list && Up([t] + list, woken) == woken + {t}
    ensures Rest([]) == [] && Up([], woken) == woken
  {
  }

  lemma WakeOne(r: seq<Tid>, wr: set<Tid>, ar: int, s: seq<Tid>, ws: set<Tid>, a2: int, failed: set<Tid>,
      error: map<Tid, Err>)
    requires Waiters(r, wr, ar, s, ws, a2, failed, error)
    ensures Waiters(Rest(r), Up(r, wr), ar + 1, s, ws, a2, failed, error)
  {
    hide NoLost, Side;
    PutKeeps(r, ar, wr);
  }

  // Thread t, woken for it or just passing, takes one of the s things
  lemma TakeOne(r: seq<Tid>, wr: set<Tid>, ar: int, s: seq<Tid>, ws: set<Tid>, a2: int, failed: set<Tid>,
      error: map<Tid, Err>, t: Tid)
    requires Waiters(r, wr, ar, s, ws, a2, failed, error)
    ensures Waiters(r, wr, ar, s, ws - {t}, a2 - 1, failed, error)
  {
    hide NoLost, Side;
    TakeKeeps(s, a2, ws, t);
  }

  // Thread t finds none of the s things and sleeps
  lemma Sleep(r: seq<Tid>, wr: set<Tid>, ar: int, s: seq<Tid>, ws: set<Tid>, failed: set<Tid>, error: map<Tid, Err>,
              s': seq<Tid>, k: nat, t: Tid)
    requires Waiters(r, wr, ar, s, ws, 0, failed, error) && InsertedAt(s, s', k, t)
    requires t !in s && Away(t, r, wr) && t !in failed
    ensures Waiters(r, wr, ar, s', ws - {t}, 0, failed, error[t := EOK])
  {
    hide NoLost, Side, OnePlace, Errors, InsertedAt;
    NothingKeeps(s, s', k, ws, t);
    SleepPlace(r, wr, s, ws, failed, error, s', t);
  }

  lemma SleepPlace(r: seq<Tid>, wr: set<Tid>, s: seq<Tid>, ws: set<Tid>, failed: set<Tid>, error: map<Tid, Err>,
      s': seq<Tid>, t: Tid)
    requires OnePlace(r, wr, s, ws, failed) && Errors(r, wr, s, ws, failed, error)
    requires (forall x :: x in s' <==> x in s || x == t) && Away(t, r, wr) && t !in failed
    ensures OnePlace(r, wr, s', ws - {t}, failed) && Errors(r, wr, s', ws - {t}, failed, error[t := EOK])
  {
  }

  // Thread t finds none of the s things and returns
  lemma GiveUp(r: seq<Tid>, wr: set<Tid>, ar: int, s: seq<Tid>, ws: set<Tid>, failed: set<Tid>, error: map<Tid, Err>,
      t: Tid, e: Err)
    requires Waiters(r, wr, ar, s, ws, 0, failed, error) && t !in s && Away(t, r, wr) && t !in failed
    ensures Waiters(r, wr, ar, s, ws - {t}, 0, failed, error[t := e])
  {
    CardRemove(ws, t);
  }

  // A sleeper of kind r leaves with an error
  lemma Fail(r: seq<Tid>, wr: set<Tid>, ar: int, s: seq<Tid>, ws: set<Tid>, a2: int, failed: set<Tid>,
      error: map<Tid, Err>, t: Tid, e: Err)
    requires Waiters(r, wr, ar, s, ws, a2, failed, error) && t in r && e != EOK
    ensures Waiters(Without(r, t), wr, ar, s, ws, a2, failed + {t}, error[t := e])
    ensures |Without(r, t)| < |r|
  {
    hide NoLost, Side, Without;
    LeaveKeeps(r, ar, wr, t);
  }

  // A failed thread runs again
  lemma Forget(r: seq<Tid>, wr: set<Tid>, ar: int, s: seq<Tid>, ws: set<Tid>, a2: int, failed: set<Tid>,
      error: map<Tid, Err>, t: Tid)
    requires Waiters(r, wr, ar, s, ws, a2, failed, error)
    ensures Waiters(r, wr, ar, s, ws, a2, failed - {t}, error)
  {
    hide NoLost, Side;
  }

  // With nobody asleep any number may be available
  lemma Nobody(wr: set<Tid>, ar: int, ws: set<Tid>, a2: int, failed: set<Tid>, error: map<Tid, Err>, ar': int, a2': int)
    requires Waiters([], wr, ar, [], ws, a2, failed, error)
    ensures Waiters([], wr, ar', [], ws, a2', failed, error)
  {
  }
}
