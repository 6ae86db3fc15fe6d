/** Memory pools of rt-thread/src/mempool.c:72-117, 303-449: equal blocks whose free ones are chained through
    their headers, and threads that sleep until one comes back. Addresses are numbers, 0 is RT_NULL. */
module MemPool {
  import opened Sequences
  import opened Chains
  import opened WaitList
  import opened Wakeup

  const LINK: nat := 8      // sizeof(rt_uint8_t *)

  // RT_ALIGN of the block size, and the header
  function Stride(block_size: nat): (s: nat)
    ensures (s - LINK) % 8 == 0 && block_size + LINK <= s < block_size + LINK + 8
  {
    (block_size + 7) / 8 * 8 + LINK
  }

  function Address(start: nat, stride: nat, k: nat): nat {
    start + k * stride
  }

  ghost function Blocks(start: nat, stride: nat, total: nat): set<nat> {
    set k | 0 <= k < total :: Address(start, stride, k)
  }

  /** Blocks do not overlap. */
  lemma Disjoint(start: nat, stride: nat, j: nat, k: nat)
    requires j < k
    ensures Address(start, stride, j) + stride <= Address(start, stride, k)
  {
    assert (j + 1) * stride <= k * stride;
  }

  /** All blocks lie inside the memory of the pool, and there is no room for one more. */
  lemma InsidePool(start: nat, stride: nat, size: nat, b: nat)
    requires stride > 0 && b in Blocks(start, stride, size / stride)
    ensures start <= b && b + stride <= start + size < start + (size / stride + 1) * stride
  {
    var n := size / stride;
    var k :| 0 <= k < n && b == Address(start, stride, k);
    Disjoint(start, stride, k, n);
    Quotient(size, stride);
    assert (n + 1) * stride == n * stride + stride;
  }

  // Free and live blocks are all blocks, and no block is both
  ghost predicate Parts(all: set<nat>, free: seq<nat>, live: set<nat>) {
    && Distinct(free)
    && (forall b :: b in all <==> b in free || b in live)
    && (forall b :: b in free ==> b !in live)
    && 0 !in all
  }

  class Pool {
    const self: nat               // the address of the control block
    const start: nat
    const stride: nat             // block_size and the header
    const total: nat              // block_total_count
    var headers: map<nat, nat>
    var block_list: nat
    var block_free_count: nat
    var suspended: seq<Tid>
    var error: map<Tid, Err>
    ghost var free: seq<nat>
    ghost var live: set<nat>
    ghost var waking: set<Tid>
    ghost var failed: set<Tid>

    ghost predicate Valid()
      reads this
    {
      && Chain(headers, block_list, free) && block_free_count == |free|
      && Parts(Blocks(start, stride, total), free, live)
      && LeadBack(live, headers, self)
      && Waiters([], {}, 0, suspended, waking, block_free_count, failed, error)
    }

    ghost predicate Outside(t: Tid)
      reads this
    {
      Away(t, suspended, waking) && t !in failed
    }

    /** While a thread sleeps, every free block has a woken thread coming for it. */
    lemma NothingMissed()
      requires Valid()
      ensures suspended != [] ==> block_free_count <= |waking|
    {
    }

    /** rt_mp_init; the store that ends the chain needs at least one block. */
    constructor (mp: nat, address: nat, size: nat, block_size: nat)
      requires address > 0 && block_size > 0 && Stride(block_size) <= size / 8 * 8
      ensures Valid() && start == address && stride == Stride(block_size) &&
          total == (size / 8 * 8) / Stride(block_size) > 0
      ensures block_free_count == total && live == {} && suspended == [] && waking == failed == {}
    {
      hide Chain, Parts;
      AtLeastOne(size / 8 * 8, Stride(block_size));
      var step := Stride(block_size);
      var count := (size / 8 * 8) / step;
      var hs, blocks := Thread(address, step, count);
      self, start, stride, total := mp, address, step, count;
      block_free_count, block_list := count, address;
      headers, suspended, error := hs, [], map[];
      free, live, waking, failed := blocks, {}, {}, {};
    }

    /** rt_mp_alloc: the first free block, or sleep in front of the other waiters. */
    method Alloc(t: Tid, time: int, again: bool) returns (o: Outcome, p: nat)
      requires Valid() && (if again then t in waking else Outside(t))
      modifies this
      ensures Valid() && waking == old(waking) - {t} && failed == old(failed)
      ensures old(block_free_count) > 0 ==>
                && o == Finished && p >= LINK && old(free) == [p - LINK] + free && live == old(live) + {p - LINK}
                && p - LINK !in old(live) && suspended == old(suspended)
      ensures old(block_free_count) == 0 ==>
                && o == (if time == 0 then Failed(ETIMEOUT) else Waits) && p == 0 && live == old(live) &&
                    free == old(free)
                && suspended == (if o == Waits then [t] + old(suspended) else old(suspended))
    {
      hide Waiters, Chain, Parts;
      Places(t);
      if block_free_count == 0 {
        p := 0;
        if time == 0 {
          GiveUp([], {}, 0, suspended, waking, failed, error, t, ETIMEOUT);
          error, waking := error[t := ETIMEOUT], waking - {t};
          return Failed(ETIMEOUT), 0;
        }
        assert InsertedAt(suspended, [t] + suspended, 0, t);
        Sleep([], {}, 0, suspended, waking, failed, error, [t] + suspended, 0, t);
        error, waking := error[t := EOK], waking - {t};
        suspended := [t] + suspended;
        return Waits, 0;
      }
      TakeOne([], {}, 0, suspended, waking, block_free_count, failed, error, t);
      PopOk(Blocks(start, stride, total), headers, block_list, free, live, self);
      block_free_count, waking := block_free_count - 1, waking - {t};
      var b: nat := block_list;
      block_list := headers[b];
      headers := headers[b := self];
      free, live := free[1..], live + {b};
      o, p := Finished, b + LINK;
    }

    lemma Places(t: Tid)
      requires Valid() && (Outside(t) || t in waking)
      ensures t !in suspended && t !in failed
    {
    }

    /** rt_mp_free of a live block: it becomes the first free one, and one sleeper is woken. */
    method Free(p: nat)
      requires Valid() && (p == 0 || (p >= LINK && p - LINK in live))
      modifies this
      ensures Valid() && failed == old(failed)
      ensures p == 0 ==> free == old(free) && live == old(live) && suspended == old(suspended) && waking == old(waking)
      ensures p != 0 ==> p >= LINK && free == [p - LINK] + old(free) && live == old(live) - {p - LINK}
      ensures p != 0 ==> suspended == Rest(old(suspended)) && waking == Up(old(suspended), old(waking))
    {
      hide Waiters, Chain, Parts;
      if p == 0 {
        return;
      }
      var b: nat := p - LINK;
      Swap([], {}, 0, suspended, waking, block_free_count, failed, error);
      WakeOne(suspended, waking, block_free_count, [], {}, 0, failed, error);
      PushOk(Blocks(start, stride, total), headers, block_list, free, live, self, b);
      block_free_count := block_free_count + 1;
      headers := headers[b := block_list];
      block_list := b;
      free, live := [b] + free, live - {b};
      waking := Up(suspended, waking);
      if suspended != [] {
        suspended := suspended[1..];
      }
      Swap(suspended, waking, block_free_count, [], {}, 0, failed, error);
    }

    // rt_thread_timeout of a sleeper
    method Timeout(t: Tid)
      requires Valid() && t in suspended
      modifies `suspended, `error, `failed
      ensures Valid() && suspended == Without(old(suspended), t) && failed == old(failed) + {t}
    {
      hide Waiters, Chain, Parts;
      Swap([], {}, 0, suspended, waking, block_free_count, failed, error);
      Fail(suspended, waking, block_free_count, [], {}, 0, failed, error, t, ETIMEOUT);
      error := error[t := ETIMEOUT];
      suspended, failed := Without(suspended, t), failed + {t};
      Swap(suspended, waking, block_free_count, [], {}, 0, failed, error);
    }

    /** A thread that timed out gets no block. */
    method Return(t: Tid) returns (p: nat)
      requires Valid() && t in failed
      modifies `failed
      ensures Valid() && p == 0 && failed == old(failed) - {t}
    {
      hide Chain, Parts;
      Forget([], {}, 0, suspended, waking, block_free_count, failed, error, t);
      failed := failed - {t};
      p := 0;
    }
  }

  // A live block's header leads back to the pool
  ghost predicate LeadBack(live: set<nat>, headers: map<nat, nat>, self: nat) {
    forall b :: b in live ==> b in headers && headers[b] == self
  }

  lemma PopOk(all: set<nat>, headers: map<nat, nat>, first: nat, free: seq<nat>, live: set<nat>, self: nat)
    requires Chain(headers, first, free) && Parts(all, free, live) && LeadBack(live, headers, self) && free != []
    ensures first in headers && first == free[0] && first !in live
    ensures Chain(headers[first := self], headers[first], free[1..]) && Parts(all, free[1..], live + {first})
    ensures LeadBack(live + {first}, headers[first := self], self)
  {
    ChainPop(headers, first, free);
    ChainFrame(headers, headers[first := self], headers[first], free[1..]);
  }

  lemma PushOk(all: set<nat>, headers: map<nat, nat>, first: nat, free: seq<nat>, live: set<nat>, self: nat, b: nat)
    requires Chain(headers, first, free) && Parts(all, free, live) && LeadBack(live, headers, self) && b in live
    ensures Chain(headers[b := first], b, [b] + free) && Parts(all, [b] + free, live - {b})
    ensures LeadBack(live - {b}, headers[b := first], self)
  {
    assert b in all;
    ChainPush(headers, first, free, b);
  }

  // Each header points to the block behind it, the last one nowhere
  method Thread(start: nat, stride: nat, total: nat) returns (headers: map<nat, nat>, ghost free: seq<nat>)
    requires start > 0 && stride > 0 && total > 0
    ensures |free| == total && Chain(headers, start, free) && Parts(Blocks(start, stride, total), free, {})
  {
    hide Parts, Chain;
    headers, free := map[], [];
    var offset := 0;
    while offset < total
      invariant 0 <= offset <= total && Threaded(headers, start, stride, offset, free)
    {
      ThreadMore(headers, start, stride, offset, free);
      headers := headers[start + offset * stride := start + (offset + 1) * stride];
      free := free + [Address(start, stride, offset)];
      offset := offset + 1;
    }
    ThreadEnds(headers, start, stride, total, free);
    ThreadAddresses(headers, start, stride, total, free);
    headers := headers[start + (offset - 1) * stride := 0];
    ChainAll(headers, free, 0);
    assert free[0..] == free;
    AllBlocks(start, stride, total, free);
  }

  ghost predicate Threaded(headers: map<nat, nat>, start: nat, stride: nat, n: nat, free: seq<nat>) {
    && |free| == n
    && (forall k :: 0 <= k < n ==> free[k] == Address(start, stride, k) && free[k] in headers)
    && (forall k :: 0 <= k < n ==> headers[free[k]] == Address(start, stride, k + 1))
  }

  lemma ThreadMore(headers: map<nat, nat>, start: nat, stride: nat, n: nat, free: seq<nat>)
    requires Threaded(headers, start, stride, n, free) && stride > 0
    ensures Threaded(headers[Address(start, stride, n) := Address(start, stride, n + 1)], start, stride, n + 1,
                     free + [Address(start, stride, n)])
  {
    forall k | 0 <= k < n
      ensures free[k] != Address(start, stride, n)
    {
      Disjoint(start, stride, k, n);
    }
    hide Address;
  }

  lemma ThreadEnds(headers: map<nat, nat>, start: nat, stride: nat, n: nat, free: seq<nat>)
    requires Threaded(headers, start, stride, n, free) && start > 0 && stride > 0 && n > 0
    ensures Links(headers[Address(start, stride, n - 1) := 0], free) && free[0] == start
  {
    hide Address;
    var last := Address(start, stride, n - 1);
    AddressZero(start, stride);
    assert free[n - 1] == last;
    forall k: nat | k < n
      ensures free[k] != 0 && (k < n - 1 ==> free[k] != last)
    {
      AddressPositive(start, stride, k);
      if k < n - 1 {
        Disjoint(start, stride, k, n - 1);
      }
    }
    LastLink(headers, free, n);
  }

  lemma LastLink(headers: map<nat, nat>, free: seq<nat>, n: nat)
    requires n > 0 && |free| == n && forall k :: 0 <= k < n ==> free[k] != 0 && free[k] in headers
    requires forall k :: 0 <= k < n - 1 ==> free[k] != free[n - 1] && headers[free[k]] == free[k + 1]
    ensures Links(headers[free[n - 1] := 0], free)
  {
  }

  lemma AddressZero(start: nat, stride: nat)
    ensures Address(start, stride, 0) == start
  {
  }

  lemma AddressPositive(start: nat, stride: nat, k: nat)
    requires start > 0
    ensures Address(start, stride, k) > 0
  {
  }

  lemma ThreadAddresses(headers: map<nat, nat>, start: nat, stride: nat, n: nat, free: seq<nat>)
    requires Threaded(headers, start, stride, n, free)
    ensures |free| == n && forall k :: 0 <= k < n ==> free[k] == Address(start, stride, k)
  {
  }

  lemma AtLeastOne(size: nat, stride: nat)
    requires 0 < stride <= size
    ensures size / stride >= 1
  {
    assert size == stride * (size / stride) + size % stride;
  }

  lemma {:induction false} ChainAll(headers: map<nat, nat>, free: seq<nat>, i: nat)
    requires i < |free| && Links(headers, free)
    ensures Chain(headers, free[i], free[i..])
    decreases |free| - i
  {
    assert Linked(headers, free, i);
    assert free[i..][1..] == free[i + 1..];
    if i + 1 < |free| {
      ChainAll(headers, free, i + 1);
    } else {
      assert free[i + 1..] == [] && Chain(headers, 0, free[i + 1..]);
    }
  }

  ghost predicate Linked(headers: map<nat, nat>, free: seq<nat>, k: nat) {
    k < |free| ==> free[k] != 0 && free[k] in headers && headers[free[k]] == if k + 1 < |free| then free[k + 1] else 0
  }

  ghost predicate Links(headers: map<nat, nat>, free: seq<nat>) {
    forall k: nat :: Linked(headers, free, k)
  }

  lemma AllBlocks(start: nat, stride: nat, total: nat, free: seq<nat>)
    requires start > 0 && stride > 0 && |free| == total && forall k :: 0 <= k < total ==>
        free[k] == Address(start, stride, k)
    ensures Parts(Blocks(start, stride, total), free, {})
  {
    forall i, j | 0 <= i < j < |free|
      ensures free[i] != free[j]
    {
      Disjoint(start, stride, i, j);
    }
    forall b
      ensures b in Blocks(start, stride, total) <==> b in free
    {
      if b in Blocks(start, stride, total) {
        var k :| 0 <= k < total && b == Address(start, stride, k);
        assert free[k] == b;
      }
      if b in free {
        var k :| 0 <= k < |free| && free[k] == b;
      }
    }
  }

  // ---- pools with room for no block ----

  const WORD: nat := 0x1_0000_0000_0000_0000

  // Where rt_mp_init stores the link that ends the chain: at block number offset - 1, in word arithmetic
  function EndOfChain(start: nat, stride: nat, total: nat): nat {
    (start + (total as int - 1) % WORD * stride) % WORD
  }

  ghost predicate Inside(address: nat, start: nat, size: nat) {
    start <= address && address + LINK <= start + size
  }

  /** That store lands inside the pool if and only if the pool has room for a block. */
  lemma EndOfChainInsideIff(start: nat, size: nat, block_size: nat)
    requires 0 < start && 0 < block_size && start + size <= WORD && Stride(block_size) + size <= WORD
    ensures var usable, stride := size / 8 * 8, Stride(block_size);
            Inside(EndOfChain(start, stride, usable / stride), start, usable) <==> stride <= usable
  {
    var usable, stride := size / 8 * 8, Stride(block_size);
    var total := usable / stride;
    Quotient(usable, stride);
    if stride <= usable {
      AtLeastOne(usable, stride);
      hide *;
      EndWithRoom(start, usable, stride, total);
    } else {
      NoQuotient(usable, stride);
      hide *;
      EndWithout(start, usable, stride);
    }
  }

  lemma NoQuotient(a: nat, b: nat)
    requires a < b
    ensures a / b == 0
  {
  }

  // The last block holds the link
  lemma EndWithRoom(start: nat, usable: nat, stride: nat, total: nat)
    requires total >= 1 && total * stride <= usable && start + usable <= WORD && 0 < start && stride >= LINK
    ensures Inside(EndOfChain(start, stride, total), start, usable)
  {
    TimesAtLeast(total, stride);
    var t: nat := total - 1;
    assert t * stride == total * stride - stride;
    Small(t);
    Small(start + t * stride);
  }

  lemma Small(a: nat)
    requires a < WORD
    ensures a % WORD == a
  {
  }

  // 0 - 1 wraps, and the product wraps back
  lemma EndWithout(start: nat, usable: nat, stride: nat)
    requires usable < stride && start + usable <= WORD && stride + usable <= WORD && 0 < start
    ensures !Inside(EndOfChain(start, stride, 0), start, usable)
  {
    assert (0 - 1) % WORD == WORD - 1;
    assert (WORD - 1) * stride == stride * WORD - stride;
    ModShift(start - stride, stride);
    assert EndOfChain(start, stride, 0) == (start as int - stride) % WORD;
    if start >= stride {
      Small(start - stride);
    } else {
      ModShift(start - stride, 1);
      Small(start - stride + WORD);
    }
  }

  lemma Quotient(a: nat, b: nat)
    requires b > 0
    ensures a / b * b <= a < a / b * b + b
  {
  }

  lemma TimesAtLeast(a: nat, b: nat)
    ensures b > 0 ==> a * b >= a
  {
  }

  lemma {:induction false} ModShift(a: int, k: nat)
    ensures (a + k * WORD) % WORD == a % WORD
  {
    if k > 0 {
      ModShift(a, k - 1);
      var x := a + (k - 1) * WORD;
      assert x + WORD == a + k * WORD;
      assert (x + WORD) % WORD == x % WORD;
    }
  }

  /** Eight bytes for blocks of eight: the store goes to sixteen bytes in front of the pool. */
  lemma SmallPoolWritesInFront()
    ensures Stride(8) == 16 && EndOfChain(4096, Stride(8), 8 / Stride(8)) == 4080
  {
    ModShift(4096 - 16, 16);
    assert (0 - 1) % WORD == WORD - 1;
  }
}
