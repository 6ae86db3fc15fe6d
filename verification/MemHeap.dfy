/** rt-thread/src/memheap.c:27-595: a heap whose free blocks are in a list, newest first, and whose blocks form an
    address-ordered ring. The semaphore makes every call one step. Addresses are numbers, 0 is RT_NULL. */
module MemHeap {
  import opened Sequences
  import opened Chains
  import opened FreeRing
  import opened MapSum
  import opened MemHeapRep
  import opened Tiling

  class MemHeap {
    const base: nat                  // start_addr
    const poolSize: nat
    const head: nat := poolSize      // stands for the address of free_header
    const end: nat                   // the tailer block
    var headers: Headers
    var nextFree: map<nat, nat>
    var prevFree: map<nat, nat>
    var available: nat
    var maxUsed: int
    ghost var blocks: set<nat>
    ghost var live: map<nat, nat>
    ghost var spare: map<nat, nat>
    ghost var ring: seq<nat>
    ghost var strayed: bool          // some header has stood at no multiple of 8
    ghost var oddCut: bool           // some request has been cut off at no multiple of 8

    ghost predicate Valid()
      reads this
    {
      && base > 0 && end + ITEM == poolSize < LIMIT
      && Book(headers, blocks, end, live, spare, available, nextFree, prevFree, ring, head)
      && Coalesced(headers, blocks, end)
      && Stocked(live) && History(blocks, strayed, oddCut)
    }

    /** Between any two calls: the ring of blocks leads from each to the next and back, no two neighbours are free,
        used blocks are disjoint, the list holds exactly the free blocks, and `available` is their payload. */
    lemma ValidMeans()
      requires Valid()
      ensures forall b :: b in blocks && b < end ==>
                && b in headers && headers[b].next in blocks && headers[b].next in headers &&
                    b + ITEM <= headers[b].next
                && (headers[b].used || headers[headers[b].next].used) && (headers[b].used <==> b in live)
      ensures forall b :: b in blocks && 0 < b < end ==>
                headers[b].prev in blocks && headers[b].prev in headers && headers[headers[b].prev].next == b
      ensures forall b, c :: b in live && c in live && b != c ==>
          b + live[b] <= end && (b + live[b] <= c || c + live[c] <= b)
      ensures ring != [] && Distinct(ring)
      ensures forall b :: b in ring[1..] <==> b in blocks && b in headers && !headers[b].used
      ensures forall b :: b in spare <==> b in ring[1..]
      ensures available == Sum(spare) && forall b :: b in spare && b in headers ==>
          b + ITEM + spare[b] == headers[b].next
    {
      TilesAre(headers, blocks, end, live);
      EndUsed(headers, blocks, end);
      hide Tiled, Linked, Ring;
      RingDistinct(nextFree, prevFree, ring);
      forall b | b in blocks && b < end
        ensures headers[b].next in blocks && headers[b].next in headers && b + ITEM <= headers[b].next
        ensures headers[b].used || headers[headers[b].next].used
      {
        Room(headers, blocks, end, live, b);
        assert Fine(headers, b);
      }
      forall b | b in blocks && 0 < b < end
        ensures headers[b].prev in blocks && headers[b].prev in headers && headers[headers[b].prev].next == b
      {
        PrevIn(headers, blocks, end, b);
      }
      forall b, c | b in live && c in live && b != c
        ensures b + live[b] <= end && (b + live[b] <= c || c + live[c] <= b)
      {
        LiveDisjoint(headers, blocks, end, live, b, c);
      }
      forall b
        ensures b in spare <==> b in blocks && b in headers && !headers[b].used
      {
        assert Unused(headers, blocks, b) <==> b in blocks && b in headers && !headers[b].used;
      }
    }

    /** Over any run: every header has always stood at a multiple of 8 if and only if no request that rounds to 12
        has been cut off a longer block. */
    lemma AlignedIff()
      requires Valid()
      ensures strayed <==> oddCut
      ensures !oddCut ==> forall b :: b in blocks ==> b % ALIGN == 0
    {
    }

    /** rt_memheap_init: one free block and the tailer. */
    constructor (start: nat, size: nat)
      requires start > 0 && Down(size) >= 2 * ITEM && size < LIMIT
      ensures Valid() && base == start && poolSize == Down(size) && live == map[] && !strayed
      ensures available == Down(size) - 2 * ITEM && spare == map[0 := available]
    {
      hide Book, Down;
      var s := Down(size);
      base, poolSize, end := start, s, s - ITEM;
      headers := map[0 := Header(false, s - ITEM, s - ITEM), s - ITEM := Header(true, 0, 0)];
      nextFree, prevFree := map[s := 0, 0 := s], map[s := 0, 0 := s];
      available, maxUsed := s - 2 * ITEM, 2 * ITEM;
      blocks, live, spare, ring := {0, s - ITEM}, map[], map[0 := s - 2 * ITEM], [s, 0];
      strayed, oddCut := false, false;
      new;
      InitOk(s);
      InitGrid(size);
    }

    // ---- the free list ----

    // next_free and prev_free of the neighbours, and RT_NULL in the block
    method Unlink(x: nat, ghost s: map<nat, nat>)
      requires Listed(nextFree, prevFree, ring, head, s) && x in s
      modifies `nextFree, `prevFree, `ring
      ensures Listed(nextFree, prevFree, ring, head, s - {x}) && ring == Without(old(ring), x)
    {
      hide *;
      ghost var i := ListIndex(nextFree, prevFree, ring, head, s, x);
      ListTaken(nextFree, prevFree, ring, head, s, i);
      ListRemove(nextFree, prevFree, ring, head, s, i);
      var nf := nextFree[prevFree[x] := nextFree[x]];
      var pf := prevFree[nextFree[x] := prevFree[x]];
      nextFree, prevFree := nf[x := 0], pf[x := 0];
      ring := Drop(ring, i);
    }

    // In front of the list
    method Push(x: nat, ghost s: map<nat, nat>, ghost v: nat)
      requires Listed(nextFree, prevFree, ring, head, s) && x !in s && x != head
      modifies `nextFree, `prevFree, `ring
      ensures old(ring) != [] && Listed(nextFree, prevFree, ring, head, s[x := v]) && ring == Pushed(old(ring), x)
    {
      hide *;
      ListPush(nextFree, prevFree, ring, head, s, x, v);
      RingStart(nextFree, prevFree, ring, head, s);
      var first := nextFree[head];
      nextFree := nextFree[x := first][head := x];
      prevFree := prevFree[x := head][first := x];
      ring := Pushed(ring, x);
    }

    // A free block is linked into the ring at p, behind the used block b
    method CutBlock(hs: Headers, b: nat, p: nat) returns (hs': Headers)
      requires b in hs && hs[b].next in hs && b < p < hs[b].next <= end && hs[b].used
      ensures hs' == Cut(hs, end, b, p)
    {
      var next := hs[b].next;
      hs' := hs[p := Header(false, next, b)];
      hs' := hs'[next := hs'[next].(prev := p)];
      hs' := hs'[b := hs'[b].(next := p)];
    }

    // The block behind b goes out of the ring
    method DropNext(hs: Headers, b: nat) returns (hs': Headers)
      requires b in hs && hs[b].next in hs && hs[hs[b].next].next in hs && hs[b].next != b
      ensures hs' == Merge(hs, b)
    {
      var next := hs[hs[b].next].next;
      hs' := hs[b := hs[b].(next := next)];
      hs' := hs'[next := hs'[next].(prev := b)];
    }

    // ---- rt_memheap_alloc ----

    /** The search: the first block of the list that is large enough. */
    method Search(size: nat) returns (b: nat, freeSize: nat)
      requires Valid() && size > 0
      ensures freeSize < size ==> forall x :: x in spare ==> spare[x] < size
      ensures freeSize >= size ==> FirstFit(ring, spare, b, size) && spare[b] == freeSize
    {
      hide Tiles, Small, Ring;
      RingStart(nextFree, prevFree, ring, head, spare);
      RingLinks(nextFree, prevFree, ring, head, spare, 0);
      b, freeSize := nextFree[head], 0;
      ghost var i := Succ(0, |ring|);
      NothingSmall(ring, spare, size);
      while b != head && freeSize < size
        invariant i < |ring| && b == ring[i] && (b == head <==> i == 0)
        invariant freeSize < size ==> Small(ring, spare, if i == 0 then |ring| else i, size)
        invariant freeSize >= size ==> b in spare && spare[b] == freeSize && 0 < i && Small(ring, spare, i, size)
        decreases if i == 0 then 0 else |ring| - i, size - freeSize
      {
        InList(nextFree, prevFree, ring, head, spare, i);
        SpareIs(headers, blocks, spare, end, b);
        freeSize := headers[b].next - b - ITEM;
        if freeSize < size {
          SmallMore(ring, spare, i, size);
          RingLinks(nextFree, prevFree, ring, head, spare, i);
          b := nextFree[b];
          i := Succ(i, |ring|);
        }
      }
      if freeSize < size {
        NoneLarge(nextFree, prevFree, ring, head, spare, size);
      }
    }

    method Account()
      modifies `maxUsed
      ensures maxUsed == Most(old(maxUsed), poolSize - available)
    {
      if poolSize - available > maxUsed {
        maxUsed := poolSize - available;
      }
    }

    // The new headers and byte count, and what they stand for; a request of `size` bytes was cut off
    method Commit(hs: Headers, a: nat, ghost bs: set<nat>, ghost lv: map<nat, nat>, ghost sp: map<nat, nat>,
        ghost size: nat)
      modifies `headers, `available, `blocks, `live, `spare, `strayed, `oddCut
      ensures headers == hs && available == a && blocks == bs && live == lv && spare == sp
      ensures strayed == (old(strayed) || !OnGrid(bs)) && oddCut == (old(oddCut) || Odd(size))
    {
      hide *;
      headers, available := hs, a;
      blocks, live, spare, strayed, oddCut := bs, lv, sp, strayed || !OnGrid(bs), oddCut || Odd(size);
    }

    // The rest of a split block takes its place in the list
    method AllocSplit(b: nat, size: nat)
      requires Valid() && b in spare && size >= MINI && spare[b] >= size + ITEM + MINI
      modifies `headers, `nextFree, `prevFree, `available, `maxUsed, `blocks, `live, `spare, `ring, `strayed, `oddCut
      ensures Valid() && b !in old(live) && live == old(live)[b := size + ITEM]
      ensures available == old(available) - size - ITEM && maxUsed == Most(old(maxUsed), poolSize - available)
      ensures Without(old(ring), b) != [] && ring == Pushed(Without(old(ring), b), b + size + ITEM)
      ensures strayed == (old(strayed) || !OnGrid(blocks)) && oddCut == (old(oddCut) || Odd(size))
    {
      hide Tiles, Spares, Listed, Coalesced, History, OnGrid, Odd, Stocked;
      SpareIs(headers, blocks, spare, end, b);
      var mem := headers[b];
      var p: nat := b + size + ITEM;
      ghost var v: nat := mem.next - p - ITEM;
      SpareNext(headers, blocks, end, live, spare, b);
      var hs := headers[p := Header(false, mem.next, b)];
      hs := hs[b := mem.(next := p, used := true)];
      hs := hs[mem.next := hs[mem.next].(prev := p)];
      SplitIs(headers, hs, end, b, p);
      SplitAlloc(headers, hs, blocks, end, live, spare, available, b, p, v);
      Unlink(b, spare);
      Push(p, spare - {b}, v);
      CutGrid(blocks, blocks + {p}, b, p, size, strayed, oddCut);
      StockedMore(live, b, p);
      Commit(hs, available - size - ITEM, blocks + {p}, Extent(live, b, p), Moved(spare, b, p, v), size);
      Account();
    }

    // The block is taken as a whole
    method AllocWhole(b: nat)
      requires Valid() && b in spare && spare[b] >= MINI
      modifies `headers, `nextFree, `prevFree, `available, `maxUsed, `live, `spare, `ring
      ensures Valid() && b !in old(live) && live == old(live)[b := old(spare)[b] + ITEM]
      ensures available == old(available) - old(spare)[b] && maxUsed == Most(old(maxUsed), poolSize - available)
      ensures ring == Without(old(ring), b)
    {
      hide Tiles, Spares, Listed, Coalesced, History, Stocked;
      SpareIs(headers, blocks, spare, end, b);
      WholeAlloc(headers, blocks, end, live, spare, available, b);
      Unlink(b, spare);
      available := available - (headers[b].next - b - ITEM);
      Account();
      StockedMore(live, b, headers[b].next);
      live := live[b := headers[b].next - b];
      headers := headers[b := headers[b].(used := true)];
      spare := spare - {b};
    }

    /** rt_memheap_alloc: a block of the request, rounded; RT_NULL exactly when no free block is large enough
        or the request is not below all that is free. */
    method Alloc(n: nat) returns (p: nat)
      requires Valid() && n < WORD
      modifies `headers, `nextFree, `prevFree, `available, `maxUsed, `blocks, `live, `spare, `ring, `strayed, `oddCut
      ensures Valid()
      ensures p == 0 <==> Rounded(n) >= old(available) || forall b :: b in old(spare) ==> old(spare)[b] < Rounded(n)
      ensures p == 0 ==>
          headers == old(headers) && live == old(live) && spare == old(spare) && available == old(available)
      ensures p != 0 ==>
                && p >= base + ITEM && p - base - ITEM in old(spare) && p - base - ITEM !in old(live) &&
                    p - base - ITEM in live
                && live == old(live)[p - base - ITEM := live[p - base - ITEM]]
                && Rounded(n) + ITEM <= live[p - base - ITEM] < Rounded(n) + ITEM + ITEM + MINI
                && FirstFit(old(ring), old(spare), p - base - ITEM, Rounded(n))
                && maxUsed == Most(old(maxUsed), poolSize - available)
      ensures strayed == (old(strayed) || !OnGrid(blocks))
      ensures oddCut == (old(oddCut) || (p != 0 && Tiny(n) && old(spare)[p - base - ITEM] >= MINI + ITEM + MINI))
    {
      hide Book, Coalesced, Rounded, Small, Pushed, Without, OnGrid, Tiny, Stocked, Odd;
      var size := Rounded(n);
      RoundedOff(n);
      GridNow(blocks, strayed, oddCut);
      p := 0;
      if size < available {
        var b, freeSize := Search(size);
        if freeSize >= size {
          if freeSize >= size + ITEM + MINI {
            AllocSplit(b, size);
          } else {
            AllocWhole(b);
          }
          p := base + b + ITEM;
        }
      }
    }

    // ---- rt_memheap_free ----

    // A free block takes over the free block behind it; `available` grows by the header that went
    method JoinNext(b: nat, ghost s: map<nat, nat>)
      requires Tiles(headers, blocks, end, live) && Spares(headers, blocks, s, end) && available == Sum(s)
      requires b in s && b in headers && headers[b].next in s && b < end && head > end
      modifies `headers, `available, `blocks
      ensures Tiles(headers, blocks, end, live) && old(b in headers && headers[b].next in s)
      ensures var n := old(headers)[b].next;
              && KeepsBut(old(headers), headers, old(blocks), b) && b in headers && blocks == old(blocks) - {n}
              && n in old(headers) && headers[b] == old(headers)[b].(next := old(headers)[n].next)
              && Spares(headers, blocks, Joint(s, b, n), end)
              && available == Sum(Joint(s, b, n)) && b != n
    {
      hide *;
      JoinFree(headers, blocks, end, live, s, available, b);
      var n := headers[b].next;
      headers := DropNext(headers, b);
      available := available + ITEM;
      blocks := blocks - {n};
    }

    // magic &= ~RT_MEMHEAP_USED, and the payload is available again
    method Mark(b: nat)
      requires Valid() && b in live
      modifies `headers, `available, `live, `spare
      ensures Tiles(headers, blocks, end, live) && Spares(headers, blocks, spare, end) && available == Sum(spare)
      ensures CoalescedBut(headers, blocks, end, b) && live == old(live) - {b} && head > end
      ensures b in spare && b in blocks && b < end && b in headers && !headers[b].used
      ensures Listed(nextFree, prevFree, ring, head, spare - {b})
      ensures b in old(headers) && headers == old(headers)[b := old(headers)[b].(used := false)]
    {
      hide Tiles, Spares, Listed, Coalesced, CoalescedBut;
      LiveIs(headers, blocks, end, live, b);
      var hs := headers[b := headers[b].(used := false)];
      MarkFree(headers, hs, blocks, end, live, spare, available, b);
      var v: nat := headers[b].next - b - ITEM;
      assert spare[b := v] - {b} == spare;
      headers := hs;
      available := available + v;
      live, spare := live - {b}, spare[b := v];
    }

    // A free block in front takes the freed one over
    method MergeBack(b: nat) returns (h: nat, insert: bool)
      requires Tiles(headers, blocks, end, live) && Spares(headers, blocks, spare, end) && available == Sum(spare) &&
          head > end
      requires CoalescedBut(headers, blocks, end, b) && b in spare && b in blocks && b < end && b in headers &&
          !headers[b].used
      requires Listed(nextFree, prevFree, ring, head, spare - {b})
      modifies `headers, `available, `blocks, `spare
      ensures Tiles(headers, blocks, end, live) && Spares(headers, blocks, spare, end) && available == Sum(spare)
      ensures CoalescedBut(headers, blocks, end, h) && FrontUsed(headers, h)
      ensures h in spare && h in blocks && h < end && h in headers && !headers[h].used
      ensures Listed(nextFree, prevFree, ring, head, if insert then spare - {h} else spare)
      ensures Behind(old(headers), b) && insert == InFront(old(headers), b) && (insert ==> h == b) &&
          blocks <= old(blocks)
      ensures headers[h].next == old(headers)[b].next && Behind(headers, h) && Used(headers, h) == Used(old(headers), b)
    {
      hide Tiles, Spares, Listed, CoalescedBut, Joint, Tiled, Linked;
      Around(headers, blocks, end, live, b);
      h, insert := b, true;
      var q := headers[b].prev;
      if !headers[q].used {
        ghost var hs, bs, s := headers, blocks, spare;
        UsedNotSpare(headers, blocks, spare, end, q);
        TilesAre(headers, blocks, end, live);
        JoinNext(q, spare);
        spare := Joint(s, q, b);
        JointKeys(s, q, b);
        TilesAre(headers, blocks, end, live);
        MergeBackFirst(hs, headers, bs, end, q, b);
        ListValue(nextFree, prevFree, ring, head, s - {b}, spare);
        h, insert := q, false;
      }
    }

    // The freed block takes a free one behind it over
    method MergeNext(h: nat, insert: bool)
      requires Tiles(headers, blocks, end, live) && Spares(headers, blocks, spare, end) && available == Sum(spare) &&
          head > end
      requires CoalescedBut(headers, blocks, end, h) && FrontUsed(headers, h)
      requires h in spare && h in blocks && h < end && h in headers && !headers[h].used
      requires Listed(nextFree, prevFree, ring, head, if insert then spare - {h} else spare)
      modifies `headers, `available, `blocks, `spare, `nextFree, `prevFree, `ring
      ensures Tiles(headers, blocks, end, live) && Spares(headers, blocks, spare, end) && available == Sum(spare)
      ensures Coalesced(headers, blocks, end) && h in spare
      ensures Listed(nextFree, prevFree, ring, head, if insert then spare - {h} else spare)
      ensures blocks <= old(blocks)
      ensures Behind(old(headers), h) && ring == if Used(old(headers), h) then old(ring)
          else Without(old(ring), old(headers)[h].next)
    {
      hide Tiles, Spares, Listed, CoalescedBut, Coalesced, KeepsBut, Joint, Tiled, Linked, FrontUsed;
      Around(headers, blocks, end, live, h);
      TilesAre(headers, blocks, end, live);
      var n := headers[h].next;
      if !headers[n].used {
        ghost var hs, bs, s := headers, blocks, spare;
        UsedNotSpare(headers, blocks, spare, end, n);
        JoinNext(h, spare);
        spare := Joint(s, h, n);
        JointKeys(s, h, n);
        TilesAre(headers, blocks, end, live);
        MergeForward(hs, headers, bs, end, h);
        FrontKept(hs, headers, bs, end, h);
        ghost var l := if insert then s - {h} else s;
        Unlink(n, l);
        ListValue(nextFree, prevFree, ring, head, l - {n}, if insert then spare - {h} else spare);
      }
      FrontIs(headers, h);
      Around(headers, blocks, end, live, h);
      AloneCoalesced(headers, blocks, end, h);
    }

    /** rt_memheap_free of an allocated block, with the assertions of the code as the precondition. */
    method Free(p: nat)
      requires Valid() && (p == 0 || (p >= base + ITEM && p - base - ITEM in live))
      modifies `headers, `nextFree, `prevFree, `available, `blocks, `live, `spare, `ring
      ensures Valid() && live == if p == 0 then old(live) else old(live) - {p - base - ITEM}
      ensures p == 0 ==> spare == old(spare) && headers == old(headers) && ring == old(ring)
      ensures p != 0 ==> FreedList(old(headers), p - base - ITEM, old(ring), ring)
      ensures blocks <= old(blocks) && strayed == (strayed || !OnGrid(blocks))
    {
      hide History, OnGrid, Stocked, Tiles, Spares, Listed, CoalescedBut, Coalesced, FrontUsed, Without, Pushed, Behind,
          Used, InFront;
      GridNow(blocks, strayed, oddCut);
      if p != 0 {
        var b: nat := p - base - ITEM;
        LiveIs(headers, blocks, end, live, b);
        Around(headers, blocks, end, live, b);
        ghost var hs, bs := headers, blocks;
        StockedLess(live, b);
        Mark(b);
        BehindIs(hs, b);
        MarkKept(hs, headers, b);
        var h, insert := MergeBack(b);
        MergeNext(h, insert);
        if insert {
          HeadFar(headers, blocks, end, live, spare, h);
          assert (spare - {h})[h := spare[h]] == spare;
          Push(h, spare - {h}, spare[h]);
        } else {
          ListStarts(nextFree, prevFree, ring, head, spare);
        }
        FewerGrid(bs, blocks, strayed, oddCut);
      }
    }

    // ---- rt_memheap_realloc ----

    /** The free block behind b lends it the missing bytes; its header moves up. */
    method Grow(b: nat, newsize: nat)
      requires Valid() && b in live && b in headers && headers[b].next in spare
      requires live[b] - ITEM < newsize && spare[headers[b].next] + live[b] - ITEM > newsize + MINI
      requires newsize >= MINI && !Odd(newsize)
      modifies `headers, `nextFree, `prevFree, `available, `maxUsed, `blocks, `live, `spare, `ring, `strayed, `oddCut
      ensures Valid() && live == old(live)[b := newsize + ITEM] && maxUsed == Most(old(maxUsed), poolSize - available)
      ensures Without(old(ring), old(headers)[b].next) != [] &&
          ring == Pushed(Without(old(ring), old(headers)[b].next), b + ITEM + newsize)
      ensures strayed == (old(strayed) || !OnGrid(blocks)) && oddCut == old(oddCut)
    {
      hide Tiles, Spares, Listed, Coalesced, History, OnGrid, Odd, Stocked;
      LiveIs(headers, blocks, end, live, b);
      SpareIs(headers, blocks, spare, end, headers[b].next);
      var old1 := headers[b].next - b - ITEM;
      var n := headers[b].next;
      var p: nat := b + ITEM + newsize;
      ghost var v: nat := headers[n].next - p - ITEM;
      SpareNext(headers, blocks, end, live, spare, n);
      GrowOk(headers, Merge(headers, b), blocks, end, live, spare, available, b, n, p, v);
      Unlink(n, spare);
      var hs := DropNext(headers, b);
      hs := CutBlock(hs, b, p);
      Push(p, spare - {n}, v);
      CutGrid(blocks, blocks - {n} + {p}, b, p, newsize, strayed, oddCut);
      StockedMore(live, b, p);
      Commit(hs, available - (newsize - old1), blocks - {n} + {p}, Extent(live, b, p), Moved(spare, n, p, v), newsize);
      Account();
    }

    // The tail of b, at p, joins the free block behind it
    method JoinTail(hs: Headers, b: nat, p: nat)
      requires Valid() && b in live && b in headers && b + ITEM + MINI <= p && headers[b].next in headers &&
          !headers[headers[b].next].used
      requires b + ITEM <= p && p + ITEM <= headers[b].next && hs == Cut(headers, end, b, p)
      modifies `headers, `nextFree, `prevFree, `available, `blocks, `live, `spare, `ring, `strayed, `oddCut
      ensures Valid() && b <= p && live == Extent(old(live), b, p)
      ensures Without(old(ring), old(headers)[b].next) != [] &&
          ring == Pushed(Without(old(ring), old(headers)[b].next), p)
      ensures strayed == (old(strayed) || !OnGrid(blocks)) && oddCut == (old(oddCut) || Odd(p - b - ITEM))
    {
      hide History, OnGrid, Odd, Stocked, Tiles, Spares, Listed, Coalesced, CoalescedBut, Joint, Cut, Merge, Moved,
          Extent, Without, Pushed;
      LiveIs(headers, blocks, end, live, b);
      var n := headers[b].next;
      ghost var v: nat := n - p - ITEM;
      TrimOk(headers, blocks, end, live, spare, available, b, p);
      TrimJoin(headers, hs, blocks, end, live, spare, available, b, p, v, n);
      var a := available - (hs[n].next - n - ITEM);
      ghost var w: nat := v + ITEM + spare[n];
      var hs1 := DropNext(hs, p);
      Unlink(n, spare);
      MovedIs(spare, n, p, w);
      Push(p, spare - {n}, w);
      a := a + (hs1[p].next - p - ITEM);
      StockedMore(live, b, p);
      CutGrid(blocks, blocks + {p} - {n}, b, p, p - b - ITEM, strayed, oddCut);
      Commit(hs1, a, blocks + {p} - {n}, Extent(live, b, p), Moved(spare, n, p, w), p - b - ITEM);
    }

    /** The tail of b becomes a free block, together with a free block behind it. */
    method Shrink(b: nat, newsize: nat)
      requires Valid() && b in live && newsize >= MINI && newsize + ITEM + MINI < live[b] - ITEM
      modifies `headers, `nextFree, `prevFree, `available, `blocks, `live, `spare, `ring, `strayed, `oddCut
      ensures Valid() && live == old(live)[b := newsize + ITEM]
      ensures Behind(old(headers), b)
      ensures var rest := if Used(old(headers), b) then old(ring) else Without(old(ring), old(headers)[b].next);
              rest != [] && ring == Pushed(rest, b + ITEM + newsize)
      ensures strayed == (old(strayed) || !OnGrid(blocks)) && oddCut == (old(oddCut) || Odd(newsize))
    {
      hide History, OnGrid, Odd, Stocked, Tiles, Spares, Listed, Coalesced, CoalescedBut, Cut, Without, Pushed;
      LiveIs(headers, blocks, end, live, b);
      Around(headers, blocks, end, live, b);
      var next := headers[b].next;
      var p: nat := b + ITEM + newsize;
      ghost var v: nat := next - p - ITEM;
      TrimOk(headers, blocks, end, live, spare, available, b, p);
      var hs := CutBlock(headers, b, p);
      if !headers[next].used {
        JoinTail(hs, b, p);
      } else {
        TrimAlone(headers, hs, blocks, end, live, spare, available, b, p, v);
        Push(p, spare, v);
        StockedMore(live, b, p);
        CutGrid(blocks, blocks + {p}, b, p, newsize, strayed, oddCut);
        Commit(hs, available + (hs[p].next - p - ITEM), blocks + {p}, Extent(live, b, p), spare[p := v], newsize);
      }
    }

    ghost predicate Payload(p: nat)
      reads this
    {
      p >= base + ITEM && p - base - ITEM in live
    }

    // rt_memheap_alloc finds nothing for a request rounded to size
    ghost predicate Refused(size: nat)
      reads this
    {
      size >= available || forall b :: b in spare ==> spare[b] < size
    }

    // The block is long enough, or is with the free block behind it
    ghost predicate Fits(p: nat, size: nat)
      requires Payload(p)
      reads this
    {
      var b, payload := p - base - ITEM, live[p - base - ITEM] - ITEM;
      payload >= size || (Behind(headers, b) && headers[b].next in spare &&
          spare[headers[b].next] + payload > size + MINI)
    }

    // No room in place: allocate, copy and free
    method Replace(p: nat, newsize: nat) returns (r: nat)
      requires Valid() && newsize < WORD && !Tiny(newsize) && Payload(p)
      modifies `headers, `nextFree, `prevFree, `available, `maxUsed, `blocks, `live, `spare, `ring, `strayed, `oddCut
      ensures Valid()
      ensures r == 0 ==> live == old(live) && headers == old(headers)
      ensures r != 0 ==>
                && Payload(r) && r - base - ITEM !in old(live) && live[r - base - ITEM] >= Rounded(newsize) + ITEM
                && live == (old(live) - {p - base - ITEM})[r - base - ITEM := live[r - base - ITEM]]
      ensures r == 0 <==> old(Refused(Rounded(newsize)))
      ensures strayed == (old(strayed) || !OnGrid(blocks)) && oddCut == old(oddCut)
    {
      hide Book, Coalesced, Rounded, Tiny, OnGrid, Stocked, History, Odd;
      AlignedIff();
      r := Alloc(newsize);
      AlignedIff();
      if r != 0 {
        Free(p);
      }
    }

    // A block that is allocated, at least newsize bytes afterwards
    method Resize(p: nat, newsize: nat) returns (r: nat)
      requires Valid() && MINI <= newsize < WORD && !Tiny(newsize) && Payload(p) && (!Odd(newsize) || newsize == MINI)
      modifies `headers, `nextFree, `prevFree, `available, `maxUsed, `blocks, `live, `spare, `ring, `strayed, `oddCut
      ensures Valid()
      ensures r == 0 ==> live == old(live) && headers == old(headers)
      ensures r == 0 || r >= base + ITEM
      ensures r != 0 ==> r == p || r - base - ITEM !in old(live)
      ensures r != 0 ==> Resized(old(live), live, p - base - ITEM, r - base - ITEM, if r == p then newsize
          else Rounded(newsize))
      ensures r == p <==> old(Fits(p, newsize))
      ensures r == 0 <==> old(!Fits(p, newsize) && Refused(Rounded(newsize)))
      ensures strayed == (old(strayed) || !OnGrid(blocks))
      ensures oddCut == (old(oddCut) || (Odd(newsize) && old(live)[p - base - ITEM] > newsize + ITEM + MINI + ITEM))
    {
      hide Book, Coalesced, Rounded, Resized, Tiny, OnGrid, Odd, Stocked, History;
      GridNow(blocks, strayed, oddCut);
      StockedAt(live, p - base - ITEM);
      var b: nat := p - base - ITEM;
      BookLive(headers, blocks, end, live, spare, available, nextFree, prevFree, ring, head, b);
      ResizedIn(live, live, b, newsize);
      var oldsize := headers[b].next - b - ITEM;
      if newsize > oldsize {
        var next := headers[b].next;
        if !headers[next].used {
          if headers[next].next - next - ITEM + oldsize > newsize + MINI {
            Grow(b, newsize);
            ResizedIn(old(live), live, b, newsize);
            return p;
          }
        }
        r := Replace(p, newsize);
        if r != 0 {
          ResizedIs(old(live), live, b, r - base - ITEM, Rounded(newsize));
        }
        return;
      }
      if newsize + ITEM + MINI >= oldsize {
        return p;
      }
      Shrink(b, newsize);
      ResizedIn(old(live), live, b, newsize);
      r := p;
    }

    /** rt_memheap_realloc: in place when the size is right, when the free block behind is large enough, or
        when enough can be cut off; else alloc, copy, free. */
    method Realloc(p: nat, n: nat) returns (r: nat)
      requires Valid() && n < WORD && (p == 0 || Payload(p))
      modifies `headers, `nextFree, `prevFree, `available, `maxUsed, `blocks, `live, `spare, `ring, `strayed, `oddCut
      ensures Valid()
      ensures n == 0 ==> r == 0 && live == if p == 0 then old(live) else old(live) - {p - base - ITEM}
      ensures n != 0 && r == 0 ==> live == old(live) && headers == old(headers)
      ensures n != 0 && p == 0 && r != 0 ==>
                && Payload(r) && r - base - ITEM !in old(live) && live[r - base - ITEM] >= Rounded(n) + ITEM
                && live == old(live)[r - base - ITEM := live[r - base - ITEM]]
      ensures n != 0 && p != 0 && r != 0 ==>
                && r >= base + ITEM && Resized(old(live), live, p - base - ITEM, r - base - ITEM, Rounded(n))
                && (r == p || r - base - ITEM !in old(live))
      ensures n != 0 && p != 0 ==>
                var (b, payload) := (p - base - ITEM, old(live)[p - base - ITEM] - ITEM);
                var longer := b in old(headers) && old(headers)[b].next in old(headers) &&
                    old(headers)[b].next in old(spare) &&
                    old(spare)[old(headers)[b].next] + payload > Rounded(n) + MINI;
                (r == p <==> payload >= Rounded(n) || longer)
      ensures n != 0 ==> (r == 0 <==> old((p == 0 || !Fits(p, Rounded(n))) && Refused(Rounded(Rounded(n)))))
      ensures strayed == (old(strayed) || !OnGrid(blocks))
      ensures oddCut == (old(oddCut) || (n != 0 && p != 0 && Tiny(n) &&
          old(live)[p - base - ITEM] > MINI + ITEM + MINI + ITEM))
    {
      hide Book, Coalesced, Rounded, Resized, Tiny, OnGrid, Stocked, History, Odd;
      if n == 0 {
        Free(p);
        return 0;
      }
      var newsize := Rounded(n);
      RoundedTwice(n);
      RoundedOff(n);
      if p == 0 {
        r := Alloc(newsize);
        return;
      }
      r := Resize(p, newsize);
      if r != 0 && r != p {
        ResizedLess(old(live), live, p - base - ITEM, r - base - ITEM, newsize, Rounded(newsize));
      }
    }
  }

  /** The used block b is now at c, with room for `size`; the others are as they were. */
  ghost predicate Resized(was: map<nat, nat>, now: map<nat, nat>, b: nat, c: nat, size: nat) {
    c in now && now[c] >= size + ITEM && now == (was - {b})[c := now[c]]
  }

  lemma ResizedIn(was: map<nat, nat>, now: map<nat, nat>, b: nat, size: nat)
    requires b in was
    ensures now == was[b := size + ITEM] ==> Resized(was, now, b, b, size)
    ensures was[b] >= size + ITEM ==> Resized(was, was, b, b, size)
  {
    assert was == (was - {b})[b := was[b]];
    assert was[b := size + ITEM] == (was - {b})[b := size + ITEM];
  }

  lemma ResizedIs(was: map<nat, nat>, now: map<nat, nat>, b: nat, c: nat, size: nat)
    requires c in now && now[c] >= size + ITEM && now == (was - {b})[c := now[c]]
    ensures Resized(was, now, b, c, size)
  {
  }

  lemma ResizedLess(was: map<nat, nat>, now: map<nat, nat>, b: nat, c: nat, size: nat, more: nat)
    requires Resized(was, now, b, c, more) && size <= more
    ensures Resized(was, now, b, c, size)
  {
  }

  // There is a block behind b, and whether it is used
  ghost predicate Behind(hs: Headers, b: nat) {
    b in hs && hs[b].next in hs
  }

  ghost predicate Used(hs: Headers, b: nat)
    requires Behind(hs, b)
  {
    hs[hs[b].next].used
  }

  // Whether the block in front of b is used
  ghost predicate InFront(hs: Headers, b: nat) {
    b in hs && hs[b].prev in hs && hs[hs[b].prev].used
  }

  // The list after the block at b was freed: without the free block behind it, which it took over, and with b
  // in front unless the free block in front of it took b over
  ghost predicate FreedList(hs: Headers, b: nat, ring: seq<nat>, ring': seq<nat>) {
    && Behind(hs, b)
    && var rest := if Used(hs, b) then ring else Without(ring, hs[b].next);
       rest != [] && ring' == if InFront(hs, b) then Pushed(rest, b) else rest
  }

  lemma BehindIs(hs: Headers, b: nat)
    requires b in hs && hs[b].next in hs
    ensures Behind(hs, b)
  {
  }

  lemma MarkKept(hs: Headers, hs': Headers, b: nat)
    requires Behind(hs, b) && hs' == hs[b := hs[b].(used := false)] && hs[b].next != b && hs[b].prev != b
    ensures Behind(hs', b) && Used(hs', b) == Used(hs, b) && InFront(hs', b) == InFront(hs, b)
    ensures hs'[b].next == hs[b].next && hs'[b].prev == hs[b].prev
  {
  }

  lemma ListStarts(nf: map<nat, nat>, pf: map<nat, nat>, ring: seq<nat>, head: nat, spare: map<nat, nat>)
    requires Listed(nf, pf, ring, head, spare)
    ensures ring != []
  {
  }

  lemma MovedIs(spare: map<nat, nat>, b: nat, p: nat, v: nat)
    ensures Moved(spare, b, p, v) == (spare - {b})[p := v]
  {
  }

  function Most(a: int, b: int): (m: int)
    ensures m >= a && m >= b && m in {a, b}
  {
    if b > a then b else a
  }

  // The first block of the list that is large enough
  ghost predicate FirstFit(ring: seq<nat>, spare: map<nat, nat>, b: nat, size: nat) {
    b in spare && spare[b] >= size && exists i :: 0 < i < |ring| && ring[i] == b && Small(ring, spare, i, size)
  }

  /** A block that was just freed is the first one looked at: it is found if it is large enough, and no other then. */
  lemma FreedFirst(ring: seq<nat>, spare: map<nat, nat>, x: nat, b: nat, size: nat)
    requires ring != [] && Distinct(Pushed(ring, x)) && x in spare && spare[x] >= size
    ensures FirstFit(Pushed(ring, x), spare, b, size) <==> b == x
  {
    var r := Pushed(ring, x);
    assert r[1] == x;
    if FirstFit(r, spare, b, size) {
      var i :| 0 < i < |r| && r[i] == b && Small(r, spare, i, size);
    }
    assert Small(r, spare, 1, size);
  }

  lemma ListTaken(nf: map<nat, nat>, pf: map<nat, nat>, ring: seq<nat>, head: nat, spare: map<nat, nat>, i: nat)
    requires Listed(nf, pf, ring, head, spare) && i < |ring|
    ensures Without(ring, ring[i]) == Drop(ring, i)
  {
    WithoutAt(ring, i);
  }

  lemma StockedAt(live: map<nat, nat>, b: nat)
    requires Stocked(live) && b in live
    ensures live[b] >= ITEM + MINI
  {
  }

  lemma GridNow(blocks: set<nat>, strayed: bool, oddCut: bool)
    requires History(blocks, strayed, oddCut)
    ensures strayed == (strayed || !OnGrid(blocks))
  {
  }

  lemma InitGrid(size: nat)
    requires Down(size) >= 2 * ITEM
    ensures OnGrid({0, Down(size) - ITEM})
  {
  }

  lemma RingDistinct(nf: map<nat, nat>, pf: map<nat, nat>, ring: seq<nat>)
    requires Ring(nf, pf, ring)
    ensures ring != [] && Distinct(ring)
  {
  }

  lemma InitOk(size: nat)
    requires size >= 2 * ITEM
    ensures var end: nat, v: nat := size - ITEM, size - 2 * ITEM;
            var hs := map[0 := Header(false, end, end), end := Header(true, 0, 0)];
            && Book(hs, {0, end}, end, map[], map[0 := v], v, map[size := 0, 0 := size], map[size := 0, 0 := size],
                [size, 0], size)
            && Coalesced(hs, {0, end}, end)
  {
    var end: nat, v: nat := size - ITEM, size - 2 * ITEM;
    var hs := map[0 := Header(false, end, end), end := Header(true, 0, 0)];
    SumAdd(map[], 0, v);
    assert Fine(hs, 0);
    var nf := map[size := 0, 0 := size];
    assert Joined(nf, nf, size, 0) && Joined(nf, nf, 0, size);
    assert Ring(nf, nf, [size, 0]);
    assert [size, 0][1..] == [0];
  }

  lemma FrontIs(hs: Headers, h: nat)
    requires FrontUsed(hs, h)
    ensures h == 0 || (hs[h].prev in hs && hs[hs[h].prev].used)
  {
  }

  lemma FrontKept(hs: Headers, hs': Headers, blocks: set<nat>, end: nat, h: nat)
    requires FrontUsed(hs, h) && KeepsBut(hs, hs', blocks, h) && Linked(hs, blocks, end) && h in blocks && h < end
    requires h in hs' && hs'[h].prev == hs[h].prev
    ensures FrontUsed(hs', h)
  {
    assert h > 0 ==> Backed(hs, blocks, h);
  }

  lemma HeadFar(hs: Headers, blocks: set<nat>, end: nat, live: map<nat, nat>, spare: map<nat, nat>, h: nat)
    requires Tiles(hs, blocks, end, live) && Spares(hs, blocks, spare, end) && h in spare
    ensures h < end
  {
    SpareUnused(hs, blocks, end, live, spare, h);
  }

  lemma RingStart(nf: map<nat, nat>, pf: map<nat, nat>, ring: seq<nat>, head: nat, spare: map<nat, nat>)
    requires Listed(nf, pf, ring, head, spare)
    ensures |ring| > 0 && head in nf && nf[head] in pf
  {
    JoinedAt(nf, pf, ring, 0);
  }

  lemma RingLinks(nf: map<nat, nat>, pf: map<nat, nat>, ring: seq<nat>, head: nat, spare: map<nat, nat>, i: nat)
    requires Listed(nf, pf, ring, head, spare) && i < |ring|
    ensures ring[i] in nf && nf[ring[i]] == ring[Succ(i, |ring|)] && ring[0] == head
    ensures forall j :: 0 <= j < |ring| && ring[j] == head ==> j == 0
  {
    JoinedAt(nf, pf, ring, i);
  }

  lemma InList(nf: map<nat, nat>, pf: map<nat, nat>, ring: seq<nat>, head: nat, spare: map<nat, nat>, i: nat)
    requires Listed(nf, pf, ring, head, spare) && 0 < i < |ring|
    ensures ring[i] in spare
  {
    assert ring[1..][i - 1] == ring[i];
  }

  lemma SpareIs(hs: Headers, blocks: set<nat>, spare: map<nat, nat>, x: nat, b: nat)
    requires Spares(hs, blocks, spare, x) && b in spare
    ensures b in hs && b in blocks && !hs[b].used && b + ITEM + spare[b] == hs[b].next
  {
  }

  lemma NothingSmall(ring: seq<nat>, spare: map<nat, nat>, size: nat)
    ensures Small(ring, spare, 1, size) && Small(ring, spare, 0, size)
  {
  }

  lemma SmallMore(ring: seq<nat>, spare: map<nat, nat>, i: nat, size: nat)
    requires Small(ring, spare, i, size) && i < |ring| && (ring[i] in spare ==> spare[ring[i]] < size)
    ensures Small(ring, spare, i + 1, size)
  {
  }

  lemma BookLive(hs: Headers, blocks: set<nat>, end: nat, live: map<nat, nat>, spare: map<nat, nat>, available: nat,
                 nf: map<nat, nat>, pf: map<nat, nat>, ring: seq<nat>, head: nat, b: nat)
    requires Book(hs, blocks, end, live, spare, available, nf, pf, ring, head) && b in live
    ensures b in hs && b + live[b] == hs[b].next && hs[b].next in hs && b + ITEM <= hs[b].next
    ensures hs[b].next in spare <==> !hs[hs[b].next].used
    ensures hs[b].next in spare ==> hs[b].next + ITEM + spare[hs[b].next] == hs[hs[b].next].next
  {
    hide Tiles, Spares, Listed;
    LiveFacts(hs, blocks, end, live, spare, b);
  }

  /** A request of one byte on a fresh pool of 256 bytes: the rest becomes a block at 60. Freed again, the odd
      header is gone, but it has been there. */
  method TinyRequestStrays(start: nat) returns (h: MemHeap)
    requires start > 0
    ensures fresh(h) && h.Valid() && h.strayed && h.live == map[]
  {
    h := new MemHeap(start, 256);
    assert Down(256) == 256;
    var p := h.Alloc(1);
    h.Free(p);
  }
}
