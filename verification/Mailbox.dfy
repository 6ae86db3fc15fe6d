/** Mailboxes of rt-thread/src/ipc.c:1290-1765: a ring of words with sleeping receivers and senders.
    A method is one region with interrupts disabled. `Send` and `Recv` are both the call and what a
    resumed call does when its thread runs again with thread->error == RT_EOK. */
module Mailbox {
  import opened Sequences
  import opened WaitList
  import opened Wakeup

  function Slot(out: nat, i: nat, size: nat): nat {
    if out + i >= size then out + i - size else out + i
  }

  // The ring from out_offset on, wrapped at the end
  ghost predicate Ring(pool: seq<nat>, out: nat, entry: nat, mails: seq<nat>)
  {
    && |mails| == entry <= |pool| && (out < |pool| || out == |pool| == 0)
    && (forall i :: 0 <= i < entry ==> Slot(out, i, |pool|) < |pool| && pool[Slot(out, i, |pool|)] == mails[i])
  }

  lemma RingBound(pool: seq<nat>, out: nat, entry: nat, mails: seq<nat>)
    requires Ring(pool, out, entry, mails)
    ensures entry == |mails| <= |pool|
  {
  }

  lemma RingPut(pool: seq<nat>, out: nat, entry: nat, mails: seq<nat>, m: nat)
    requires Ring(pool, out, entry, mails) && entry < |pool|
    ensures Slot(out, entry, |pool|) < |pool|
    ensures Ring(pool[Slot(out, entry, |pool|) := m], out, entry + 1, mails + [m])
  {
  }

  lemma RingGet(pool: seq<nat>, out: nat, entry: nat, mails: seq<nat>)
    requires Ring(pool, out, entry, mails) && entry > 0
    ensures out < |pool| && pool[out] == mails[0]
    ensures Ring(pool, if out + 1 >= |pool| then 0 else out + 1, entry - 1, mails[1..])
  {
    assert Slot(out, 0, |pool|) == out;
    var out' := if out + 1 >= |pool| then 0 else out + 1;
    forall i | 0 <= i < entry - 1
      ensures Slot(out', i, |pool|) < |pool| && pool[Slot(out', i, |pool|)] == mails[1..][i]
    {
      assert Slot(out', i, |pool|) == Slot(out, i + 1, |pool|);
    }
  }

  class Mailbox {
    const flag: Flag
    const pool: array<nat>        // msg_pool; its length is size
    var entry: nat
    var in_offset: nat
    var out_offset: nat
    var receivers: seq<Tid>       // parent.suspend_thread
    var senders: seq<Tid>         // suspend_sender_thread
    var error: map<Tid, Err>
    ghost var mails: seq<nat>
    ghost var receiving: set<Tid> // resumed, not re-run yet
    ghost var sending: set<Tid>
    ghost var failed: set<Tid>

    ghost predicate Valid()
      reads this, pool
    {
      && Ring(pool[..], out_offset, entry, mails)
      && (pool.Length > 0 ==> in_offset == Slot(out_offset, entry, pool.Length))
      && Waiters(receivers, receiving, entry, senders, sending, pool.Length - entry, failed, error)
    }

    /** While a receiver sleeps, every mail has a woken receiver coming for it; while a sender sleeps,
        every free slot has a woken sender. */
    lemma NothingMissed()
      requires Valid()
      ensures receivers != [] ==> entry <= |receiving|
      ensures senders != [] ==> pool.Length - entry <= |sending|
    {
    }

    // In no call on this mailbox
    ghost predicate Outside(t: Tid)
      reads this
    {
      Away(t, receivers, receiving) && Away(t, senders, sending) && t !in failed
    }

    constructor (size: nat, f: Flag)
      ensures Valid() && fresh(pool) && pool.Length == size && mails == [] && flag == f
      ensures receivers == senders == [] && receiving == sending == failed == {}
    {
      flag, pool := f, new nat[size];
      entry, in_offset, out_offset := 0, 0, 0;
      receivers, senders, error := [], [], map[];
      mails, receiving, sending, failed := [], {}, {}, {};
    }

    // The mail into the slot at in_offset
    method Put(m: nat)
      requires Ring(pool[..], out_offset, entry, mails) && entry < pool.Length
      requires in_offset == Slot(out_offset, entry, pool.Length)
      modifies pool, `in_offset, `entry, `mails
      ensures Ring(pool[..], out_offset, entry, mails) && entry == old(entry) + 1 && mails == old(mails) + [m]
      ensures in_offset == Slot(out_offset, entry, pool.Length)
    {
      RingPut(pool[..], out_offset, entry, mails, m);
      ghost var p := pool[..];
      pool[in_offset] := m;
      assert pool[..] == p[Slot(out_offset, entry, pool.Length) := m];
      in_offset := in_offset + 1;
      if in_offset >= pool.Length {
        in_offset := 0;
      }
      entry := entry + 1;
      mails := mails + [m];
    }

    // The mail at out_offset
    method Get() returns (m: nat)
      requires Ring(pool[..], out_offset, entry, mails) && entry > 0
      requires in_offset == Slot(out_offset, entry, pool.Length)
      modifies `out_offset, `entry, `mails
      ensures Ring(pool[..], out_offset, entry, mails) && entry == old(entry) - 1 && old(mails) == [m] + mails
      ensures in_offset == Slot(out_offset, entry, pool.Length)
    {
      RingGet(pool[..], out_offset, entry, mails);
      m := pool[out_offset];
      out_offset := out_offset + 1;
      if out_offset >= pool.Length {
        out_offset := 0;
      }
      entry := entry - 1;
      mails := mails[1..];
    }

    /** rt_mb_send_wait. */
    method Send(t: Tid, m: nat, timeout: int, again: bool, prio: map<Tid, nat>) returns (o: Outcome)
      requires Valid() && (if again then t in sending else Outside(t)) && t in prio && Known(senders, prio)
      modifies this, pool
      ensures Valid() && sending == old(sending) - {t} && failed == old(failed)
      ensures old(entry) < pool.Length ==>
                && o == Finished && mails == old(mails) + [m] && senders == old(senders)
                && receivers == Rest(old(receivers)) && receiving == Up(old(receivers), old(receiving))
      ensures old(entry) == pool.Length ==>
                && o == (if timeout == 0 then Failed(EFULL) else Waits)
                && mails == old(mails) && receivers == old(receivers) && receiving == old(receiving)
                && (if o == Waits then Joined(old(senders), senders, t, flag, prio) else senders == old(senders))
    {
      hide Waiters, Ring;
      Places(t);
      RingBound(pool[..], out_offset, entry, mails);
      if entry == pool.Length {
        if timeout == 0 {
          if again {
            GiveUp(receivers, receiving, entry, senders, sending, failed, error, t, EOK);
            error := error[t := EOK];
            sending := sending - {t};
          }
          return Failed(EFULL);
        }
        var list, k := Enqueue(senders, t, flag, prio);
        Sleep(receivers, receiving, entry, senders, sending, failed, error, list, k, t);
        error := error[t := EOK];
        senders, sending := list, sending - {t};
        return Waits;
      }
      TakeOne(receivers, receiving, entry, senders, sending, pool.Length - entry, failed, error, t);
      WakeOne(receivers, receiving, entry, senders, sending - {t}, pool.Length - entry - 1, failed, error);
      Put(m);
      sending, receiving := sending - {t}, Up(receivers, receiving);
      if receivers != [] {
        receivers := receivers[1..];
      }
      o := Finished;
    }

    /** rt_mb_recv. */
    method Recv(t: Tid, timeout: int, again: bool, prio: map<Tid, nat>) returns (o: Outcome, m: nat)
      requires Valid() && (if again then t in receiving else Outside(t)) && t in prio && Known(receivers, prio)
      modifies this
      ensures Valid() && receiving == old(receiving) - {t} && failed == old(failed)
      ensures old(entry) > 0 ==>
                && o == Finished && old(mails) == [m] + mails && receivers == old(receivers)
                && senders == Rest(old(senders)) && sending == Up(old(senders), old(sending))
      ensures old(entry) == 0 ==>
                && o == (if timeout == 0 then Failed(ETIMEOUT) else Waits)
                && mails == old(mails) && senders == old(senders) && sending == old(sending)
                && (if o == Waits then Joined(old(receivers), receivers, t, flag, prio)
                    else receivers == old(receivers))
    {
      hide Waiters, Ring;
      Places(t);
      RingBound(pool[..], out_offset, entry, mails);
      Swap(receivers, receiving, entry, senders, sending, pool.Length - entry, failed, error);
      m := 0;
      if entry == 0 {
        if timeout == 0 {
          if again {
            GiveUp(senders, sending, pool.Length, receivers, receiving, failed, error, t, ETIMEOUT);
            error := error[t := ETIMEOUT];
            receiving := receiving - {t};
            Swap(senders, sending, pool.Length, receivers, receiving, 0, failed, error);
          }
          return Failed(ETIMEOUT), 0;
        }
        var list, k := Enqueue(receivers, t, flag, prio);
        Sleep(senders, sending, pool.Length, receivers, receiving, failed, error, list, k, t);
        error := error[t := EOK];
        receivers, receiving := list, receiving - {t};
        Swap(senders, sending, pool.Length, receivers, receiving, 0, failed, error);
        return Waits, 0;
      }
      TakeOne(senders, sending, pool.Length - entry, receivers, receiving, entry, failed, error, t);
      WakeOne(senders, sending, pool.Length - entry, receivers, receiving - {t}, entry - 1, failed, error);
      m := Get();
      receiving, sending := receiving - {t}, Up(senders, sending);
      if senders != [] {
        senders := senders[1..];
      }
      Swap(senders, sending, pool.Length - entry, receivers, receiving, entry, failed, error);
      o := Finished;
    }

    lemma Places(t: Tid)
      requires Valid() && (Outside(t) || t in sending || t in receiving)
      ensures t in sending ==> t !in senders && Away(t, receivers, receiving) && t !in failed
      ensures t in receiving ==> t !in receivers && Away(t, senders, sending) && t !in failed
    {
    }

    /** The call of a thread that was resumed with an error returns that error. */
    method Return(t: Tid) returns (e: Err)
      requires Valid() && t in failed
      modifies `failed
      ensures Valid() && e != EOK && failed == old(failed) - {t}
    {
      Forget(receivers, receiving, entry, senders, sending, pool.Length - entry, failed, error, t);
      e := error[t];
      failed := failed - {t};
    }

    // A sleeping receiver leaves with an error: rt_thread_timeout, or rt_ipc_list_resume_all
    method FailReceiver(t: Tid, e: Err)
      requires Valid() && t in receivers && e != EOK
      modifies `receivers, `error, `failed
      ensures Valid() && receivers == Without(old(receivers), t) && failed == old(failed) + {t} &&
          error == old(error)[t := e]
      ensures |receivers| < |old(receivers)|
    {
      hide Waiters, Ring;
      Fail(receivers, receiving, entry, senders, sending, pool.Length - entry, failed, error, t, e);
      error := error[t := e];
      receivers, failed := Without(receivers, t), failed + {t};
    }

    method FailSender(t: Tid, e: Err)
      requires Valid() && t in senders && e != EOK
      modifies `senders, `error, `failed
      ensures Valid() && senders == Without(old(senders), t) && failed == old(failed) + {t} &&
          error == old(error)[t := e]
      ensures |senders| < |old(senders)|
    {
      hide Waiters, Ring;
      var free := pool.Length - entry;
      Swap(receivers, receiving, entry, senders, sending, free, failed, error);
      Fail(senders, sending, free, receivers, receiving, entry, failed, error, t, e);
      error := error[t := e];
      senders, failed := Without(senders, t), failed + {t};
      Swap(senders, sending, free, receivers, receiving, entry, failed, error);
    }

    /** rt_mb_control(RT_IPC_CMD_RESET): every sleeper fails and the mails are dropped. Threads resumed
        before keep their RT_EOK and will look again. */
    method Reset()
      requires Valid()
      modifies this
      ensures Valid() && mails == [] && receivers == senders == []
      ensures receiving == old(receiving) && sending == old(sending)
    {
      hide Waiters, Ring;
      while receivers != []
        invariant Valid() && receiving == old(receiving) && sending == old(sending)
        decreases |receivers|
      {
        FailReceiver(receivers[0], ERROR);
      }
      while senders != []
        invariant Valid() && receivers == [] && receiving == old(receiving) && sending == old(sending)
        decreases |senders|
      {
        FailSender(senders[0], ERROR);
      }
      Nobody(receiving, entry, sending, pool.Length - entry, failed, error, 0, pool.Length);
      RingEmpty(pool[..]);
      entry, in_offset, out_offset, mails := 0, 0, 0, [];
    }
  }

  lemma RingEmpty(pool: seq<nat>)
    ensures Ring(pool, 0, 0, [])
  {
  }
}
