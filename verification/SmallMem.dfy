/** rt-thread/src/mem.c: a first-fit heap of boundary-tagged blocks with a pointer to the lowest free one.
    The semaphore makes every call one step. Addresses are numbers, 0 is RT_NULL. */
module SmallMem {
  import opened MapSum
  import opened SmallMemRep
  import opened SmallMemSearch
  import opened Tiling

  class SmallHeap {
    const base: nat            // heap_ptr
    const size: nat            // mem_size_aligned
    var headers: Headers       // the heap_mem structures, by offset from heap_ptr
    var lfree: nat
    var used_mem: nat
    var max_mem: nat
    ghost var blocks: set<nat>
    ghost var live: map<nat, nat>

    const end: nat := size + STRUCT    // heap_end

    ghost predicate Valid()
      reads this
    {
      && base > 0 && size + STRUCT + STRUCT <= WORD
      && Book(headers, blocks, end, live, used_mem)
      && Coalesced(headers, blocks, end)
      && Hint(headers, blocks, end, lfree)
      && used_mem <= max_mem
    }

    ghost predicate LowestFree()
      reads this
    {
      Lowest(headers, blocks, end, lfree)
    }

    /** Between any two calls: each header leads to the next one and back, no two neighbours are free, used blocks
        are disjoint and counted, lfree is the lowest free block or heap_end. */
    lemma ValidMeans()
      requires Valid() && LowestFree()
      ensures forall b :: b in blocks && b < end ==>
                && b in headers && headers[b].next in blocks && headers[b].next in headers && b < headers[b].next
                && (headers[b].used || headers[headers[b].next].used) && (headers[b].used <==> b in live)
      ensures forall b :: b in blocks && 0 < b < end ==>
                headers[b].prev in blocks && headers[b].prev in headers && headers[headers[b].prev].next == b
      ensures forall b, c :: b in live && c in live && b != c ==>
                b + live[b] <= end && (b + live[b] <= c || c + live[c] <= b)
      ensures used_mem == Sum(live)
      ensures lfree == end || (lfree in blocks && lfree in headers && !headers[lfree].used)
      ensures forall b :: b in blocks && b in headers && !headers[b].used ==> lfree <= b
    {
      hide Tiled, Linked, Reaching, Apart, Framed;
      BlocksHaveHeaders(headers, blocks, end);
      forall b | b in blocks && b < end
        ensures headers[b].next in blocks && headers[b].next in headers && b < headers[b].next
        ensures headers[b].used || headers[headers[b].next].used
      {
        NextIn(headers, blocks, end, b);
        assert Fine(headers, b);
      }
      forall b | b in blocks && 0 < b < end
        ensures headers[b].prev in blocks && headers[b].prev in headers && headers[headers[b].prev].next == b
      {
        PrevIn(headers, blocks, end, b);
      }
      forall b, c | b in live && c in live && b != c
        ensures b + live[b] <= end && (b + live[b] <= c || c + live[c] <= b)
      {
        LiveDisjoint(headers, blocks, end, live, b, c);
      }
      assert forall b :: Unused(headers, blocks, b) ==> lfree <= b;
      forall b | b in blocks && b in headers && !headers[b].used
        ensures lfree <= b
      {
        assert Unused(headers, blocks, b);
      }
    }

    /** rt_system_heap_init: one free block of mem_size_aligned bytes, and heap_end. */
    constructor (heap_ptr: nat, mem_size_aligned: nat)
      requires heap_ptr > 0 && mem_size_aligned % ALIGN == 0 && mem_size_aligned + STRUCT + STRUCT <= WORD
      ensures Valid() && LowestFree() && live == map[] && base == heap_ptr && size == mem_size_aligned && max_mem == 0
    {
      base, size := heap_ptr, mem_size_aligned;
      headers := map[0 := Header(false, mem_size_aligned + STRUCT, 0),
                     mem_size_aligned + STRUCT := Header(true, mem_size_aligned + STRUCT, mem_size_aligned + STRUCT)];
      lfree, used_mem, max_mem := 0, 0, 0;
      blocks, live := {0, mem_size_aligned + STRUCT}, map[];
      new;
      assert Fine(headers, 0);
    }

    // ---- plug_holes ----

    // The block behind b becomes part of b
    method Absorb(b: nat)
      requires Book(headers, blocks, end, live, used_mem) && b in blocks && b < end
      requires b in headers && headers[b].next in headers && headers[b].next in blocks && headers[b].next < end
      requires !headers[b].used && !headers[headers[b].next].used
      modifies `headers, `blocks
      ensures Book(headers, blocks, end, live, used_mem)
      ensures Absorbed(old(headers), old(blocks), headers, blocks, b)
    {
      hide Book, Absorbed;
      AbsorbOk(headers, blocks, end, live, used_mem, b);
      var nmem := headers[b].next;
      var hs := headers[b := headers[b].(next := headers[nmem].next)];
      hs := hs[hs[b].next := hs[hs[b].next].(prev := b)];
      assert hs == Merge(headers, b);
      headers := hs;
      blocks := blocks - {nmem};
    }

    // The block behind, if it is free
    method PlugForward(mem: nat)
      requires Book(headers, blocks, end, live, used_mem) && CoalescedBut(headers, blocks, end, mem)
      requires Hint(headers, blocks, end, lfree) && mem < end && Unused(headers, blocks, mem)
      modifies `headers, `blocks, `lfree
      ensures Book(headers, blocks, end, live, used_mem) && CoalescedBut(headers, blocks, end, mem)
      ensures Hint(headers, blocks, end, lfree) && Unused(headers, blocks, mem)
      ensures headers[mem].next in headers && headers[headers[mem].next].used
      ensures headers[mem].prev == old(headers)[mem].prev && KeepsBut(old(headers), headers, old(blocks), mem)
      ensures forall c :: Unused(headers, blocks, c) ==> Unused(old(headers), old(blocks), c)
      ensures lfree == if old(lfree == headers[mem].next && headers[mem].next < end) then mem else old(lfree)
      ensures old(Lowest(headers, blocks, end, lfree)) ==> Lowest(headers, blocks, end, lfree)
    {
      NextIn(headers, blocks, end, mem);
      EndUsed(headers, blocks, end);
      KeepsAll(headers, blocks, mem);
      BlocksHaveHeaders(headers, blocks, end);
      hide Tiled, Linked, Records, Shape, KeepsBut, CoalescedBut;
      var nmem := headers[mem].next;
      if mem != nmem && !headers[nmem].used && nmem != end {
        ghost var hs, bs := headers, blocks;
        if lfree == nmem {
          lfree := mem;
        }
        Absorb(mem);
        MergeForward(hs, headers, bs, end, mem);
      }
    }

    // The block in front, if it is free
    method PlugBackward(mem: nat)
      requires Book(headers, blocks, end, live, used_mem) && CoalescedBut(headers, blocks, end, mem)
      requires Hint(headers, blocks, end, lfree) && mem < end && Unused(headers, blocks, mem)
      requires headers[mem].next in headers && headers[headers[mem].next].used
      modifies `headers, `blocks, `lfree
      ensures Book(headers, blocks, end, live, used_mem) && Coalesced(headers, blocks, end)
      ensures Hint(headers, blocks, end, lfree)
      ensures forall c :: Unused(headers, blocks, c) ==> Unused(old(headers), old(blocks), c)
      ensures old(Lowest(headers, blocks, end, lfree)) ==> Lowest(headers, blocks, end, lfree)
      ensures old(mem == 0 || headers[mem].prev !in headers || headers[headers[mem].prev].used) ==>
                Unused(headers, blocks, mem) && lfree == old(lfree)
    {
      InFront(headers, blocks, end, live, used_mem, mem);
      BlocksHaveHeaders(headers, blocks, end);
      hide Tiled, Linked, Records, Shape, KeepsBut, CoalescedBut, Coalesced;
      var pmem := headers[mem].prev;
      if pmem != mem && !headers[pmem].used {
        ghost var hs, bs := headers, blocks;
        if lfree == mem {
          lfree := pmem;
        }
        Absorb(pmem);
        MergeBackward(hs, headers, bs, end, pmem, mem);
      } else {
        AloneCoalesced(headers, blocks, end, mem);
      }
    }

    /** plug_holes(mem): mem joins a free block behind it and one in front of it. */
    method PlugHoles(mem: nat)
      requires Book(headers, blocks, end, live, used_mem) && CoalescedBut(headers, blocks, end, mem)
      requires Hint(headers, blocks, end, lfree) && mem < end && Unused(headers, blocks, mem)
      modifies `headers, `blocks, `lfree
      ensures Book(headers, blocks, end, live, used_mem) && Coalesced(headers, blocks, end)
      ensures Hint(headers, blocks, end, lfree)
      ensures forall c :: Unused(headers, blocks, c) ==> Unused(old(headers), old(blocks), c)
      ensures old(Lowest(headers, blocks, end, lfree)) ==> Lowest(headers, blocks, end, lfree)
      ensures old(mem != 0 && headers[mem].prev in headers && headers[headers[mem].prev].used) ==>
                && Unused(headers, blocks, mem)
                && lfree == if old(lfree == headers[mem].next && headers[mem].next < end) then mem else old(lfree)
    {
      InFront(headers, blocks, end, live, used_mem, mem);
      hide Book, Hint, Lowest, CoalescedBut, Coalesced;
      PlugForward(mem);
      PlugBackward(mem);
    }

    // ---- rt_malloc ----

    // used_mem += n, and the high-water mark
    method Account(n: nat)
      modifies `used_mem, `max_mem
      ensures used_mem == old(used_mem) + n
      ensures max_mem == if old(max_mem) < used_mem then used_mem else old(max_mem)
    {
      used_mem := used_mem + n;
      if max_mem < used_mem {
        max_mem := used_mem;
      }
    }

    // mem2 behind `need` bytes of b
    method TakeSplit(b: nat, need: nat)
      requires Book(headers, blocks, end, live, used_mem) && Coalesced(headers, blocks, end) && used_mem <= max_mem
      requires b in blocks && b in headers && !headers[b].used && b < end && need % ALIGN == 0
      requires need > 0 && Splits(headers, b, need) && b + STRUCT + need + STRUCT <= headers[b].next &&
          headers[b].next in headers
      modifies `headers, `used_mem, `max_mem, `blocks, `live
      ensures Book(headers, blocks, end, live, used_mem) && Coalesced(headers, blocks, end)
      ensures max_mem == if old(max_mem) < used_mem then used_mem else old(max_mem)
      ensures Took(old(headers), old(blocks), old(live), headers, blocks, live, b, need)
    {
      hide *;
      TakeSplitOk(headers, blocks, end, live, used_mem, b, need);
      var mem := headers[b];
      var p: nat := b + STRUCT + need;
      var hs := headers[p := Header(false, mem.next, b)];
      hs := hs[b := mem.(next := p, used := true)];
      if mem.next != end {
        hs := hs[mem.next := hs[mem.next].(prev := p)];
      }
      SplitIs(headers, hs, end, b, p);
      headers := hs;
      blocks, live := blocks + {p}, live[b := STRUCT + need];
      Account(need + STRUCT);
    }

    // The rest would be too small: b is taken whole
    method TakeAll(b: nat, need: nat)
      requires Book(headers, blocks, end, live, used_mem) && Coalesced(headers, blocks, end) && used_mem <= max_mem
      requires b in blocks && b in headers && !headers[b].used && b < end && b < headers[b].next
      requires 0 < need && need + STRUCT <= headers[b].next - b < need + STRUCT + STRUCT + MIN_SIZE
      modifies `headers, `used_mem, `max_mem, `live
      ensures Book(headers, blocks, end, live, used_mem) && Coalesced(headers, blocks, end)
      ensures max_mem == if old(max_mem) < used_mem then used_mem else old(max_mem)
      ensures Took(old(headers), blocks, old(live), headers, blocks, live, b, need)
    {
      hide *;
      var n := headers[b].next - b;
      var hs := headers[b := headers[b].(used := true)];
      TakeWhole(headers, hs, blocks, end, live, used_mem, b);
      WholeTook(headers, blocks, live, hs, b, need, n);
      headers := hs;
      live := live[b := n];
      Account(n);
    }

    // b is taken: split if the rest can hold a header and MIN_SIZE_ALIGNED bytes
    method TakeBlock(b: nat, need: nat)
      requires Book(headers, blocks, end, live, used_mem) && Coalesced(headers, blocks, end) && used_mem <= max_mem
      requires Fits(headers, blocks, b, need) && b < end && need > 0 && need % ALIGN == 0
      modifies `headers, `used_mem, `max_mem, `blocks, `live
      ensures Book(headers, blocks, end, live, used_mem) && Coalesced(headers, blocks, end)
      ensures max_mem == if old(max_mem) < used_mem then used_mem else old(max_mem)
      ensures Took(old(headers), old(blocks), old(live), headers, blocks, live, b, need)
    {
      Room(headers, blocks, end, live, used_mem, b);
      hide Book, Coalesced, Took;
      if headers[b].next - (b + STRUCT) >= need + STRUCT + MIN_SIZE {
        TakeSplit(b, need);
      } else {
        TakeAll(b, need);
      }
    }

    // The lowest free block was taken: the next one, or heap_end
    method NextFree()
      requires Tiled(headers, blocks, end) && lfree in blocks
      modifies `lfree
      ensures Hint(headers, blocks, end, lfree)
      ensures old(Lowest(headers, blocks, end, lfree)) ==> Lowest(headers, blocks, end, lfree)
    {
      EndUsed(headers, blocks, end);
      BlocksHaveHeaders(headers, blocks, end);
      AllBelow(headers, blocks, end);
      ghost var was := lfree;
      while headers[lfree].used && lfree != end
        invariant lfree in blocks
        invariant Lowest(headers, blocks, end, was) ==> Lowest(headers, blocks, end, lfree)
        decreases end - lfree
      {
        NextIn(headers, blocks, end, lfree);
        forall c | Unused(headers, blocks, c) && lfree <= c
          ensures headers[lfree].next <= c
        {
          NoneBetween(headers, blocks, end, lfree, c);
        }
        lfree := headers[lfree].next;
      }
    }

    // The loop of rt_malloc
    method FirstFit(need: nat) returns (b: nat)
      requires Valid() && need <= size && need % ALIGN == 0
      ensures b == end <==> NoneFits(headers, blocks, lfree, size - need, need)
      ensures b != end ==> b < end && FirstFits(headers, blocks, lfree, b, need)
    {
      hide Linked, Records, Coalesced, Tiled, Shape;
      EndUsed(headers, blocks, end);
      BlocksHaveHeaders(headers, blocks, end);
      b := lfree;
      while b < Bound(size, need)
        invariant b in blocks && lfree <= b && NoneFits(headers, blocks, lfree, b, need)
        decreases end - b
      {
        Room(headers, blocks, end, live, used_mem, b);
        if !headers[b].used && headers[b].next - (b + STRUCT) >= need {
          assert Fits(headers, blocks, b, need);
          return;
        }
        FitStep(headers, blocks, end, lfree, b, need);
        b := headers[b].next;
      }
      b := end;
    }

    // The requests that rt_malloc answers; SearchableIff says that the others make it search for ever
    ghost predicate Searchable(n: nat)
    {
      n < WORD && (n == 0 || Align(n) > size || size >= MIN_SIZE)
    }

    // rt_malloc answers without a search, or its search comes to an end
    ghost predicate Answers(n: nat)
      requires n < WORD
      reads this
    {
      n == 0 || Align(n) > size || SearchEnds(headers, size, Need(n), lfree)
    }

    /** On every heap, however small or used: the loop of rt_malloc comes to an end exactly for these requests.
        The bound it tests against, mem_size_aligned - size, wraps when a heap has less than MIN_SIZE_ALIGNED bytes. */
    lemma SearchableIff(n: nat)
      requires Valid() && n < WORD
      ensures Answers(n) <==> Searchable(n)
    {
      hide Book, Coalesced, Hint, SearchEnds, Align;
      if n != 0 && Align(n) <= size {
        SearchEndsIff(headers, blocks, end, live, used_mem, lfree, size, Need(n));
      }
    }

    // The payload rt_malloc looks for
    static function Need(n: nat): (need: nat)
      requires n < WORD
      ensures need >= MIN_SIZE && need % ALIGN == 0
      ensures n <= WORD - ALIGN ==> n <= need && (need < n + ALIGN || need == MIN_SIZE)
    {
      if Align(n) < MIN_SIZE then MIN_SIZE else Align(n)
    }

    /** rt_malloc: the lowest fitting block, or RT_NULL exactly when the search sees none. */
    method Malloc(n: nat) returns (p: nat)
      requires Valid() && Searchable(n)
      modifies `headers, `lfree, `used_mem, `max_mem, `blocks, `live
      ensures Valid() && (old(LowestFree()) ==> LowestFree())
      ensures p == 0 <==> n == 0 || Align(n) > size
                          || old(NoneFits(headers, blocks, lfree, size - Need(n), Need(n)))
      ensures p == 0 ==> headers == old(headers) && blocks == old(blocks) && live == old(live) && lfree == old(lfree)
      ensures p != 0 ==> p >= base + STRUCT && FirstFits(old(headers), old(blocks), old(lfree), p - base - STRUCT,
          Need(n))
      ensures p != 0 ==> Took(old(headers), old(blocks), old(live), headers, blocks, live, p - base - STRUCT, Need(n))
      ensures max_mem == if old(max_mem) < used_mem then used_mem else old(max_mem)
    {
      hide Book, Coalesced, Hint, Lowest, NoneFits, Took, Fits, Align;
      if n == 0 {
        return 0;
      }
      var need := Align(n);
      if need > size {
        return 0;
      }
      if need < MIN_SIZE {
        need := MIN_SIZE;
      }
      var b := FirstFit(need);
      if b == end {
        return 0;
      }
      Grab(b, need);
      p := base + b + STRUCT;
    }

    // The rest of rt_malloc once a block is found
    method Grab(b: nat, need: nat)
      requires Valid() && Fits(headers, blocks, b, need) && b < end && need > 0 && need % ALIGN == 0
      modifies `headers, `lfree, `used_mem, `max_mem, `blocks, `live
      ensures Valid() && (old(LowestFree()) ==> LowestFree())
      ensures Took(old(headers), old(blocks), old(live), headers, blocks, live, b, need)
      ensures max_mem == if old(max_mem) < used_mem then used_mem else old(max_mem)
    {
      hide Linked, Records, Coalesced, Hint, Lowest, Tiled, Shape;
      ghost var hs, bs := headers, blocks;
      TakeBlock(b, need);
      AfterTake(hs, bs, headers, blocks, end, lfree, b, b + STRUCT + need);
      if b == lfree {
        NextFree();
      }
    }

    // ---- rt_free ----

    // mem->used = 0 and the counters, before plug_holes
    method Mark(b: nat)
      requires Book(headers, blocks, end, live, used_mem) && Coalesced(headers, blocks, end)
      requires Hint(headers, blocks, end, lfree) && used_mem <= max_mem && b in live
      modifies `headers, `lfree, `used_mem, `live
      ensures Book(headers, blocks, end, live, used_mem) && CoalescedBut(headers, blocks, end, b)
      ensures Hint(headers, blocks, end, lfree) && b < end && Unused(headers, blocks, b) && used_mem <= max_mem
      ensures live == old(live) - {b}
      ensures old(Lowest(headers, blocks, end, lfree)) ==> Lowest(headers, blocks, end, lfree)
    {
      hide *;
      LiveIn(headers, blocks, end, live, used_mem, b);
      var n := headers[b].next - b;
      var hs := headers[b := headers[b].(used := false)];
      Released(headers, hs, blocks, end, live, used_mem, b);
      AfterFree(headers, hs, blocks, end, lfree, b);
      headers, used_mem, live := hs, used_mem - n, live - {b};
      if b < lfree {
        lfree := b;
      }
    }

    method FreeBlock(b: nat)
      requires Book(headers, blocks, end, live, used_mem) && Coalesced(headers, blocks, end)
      requires Hint(headers, blocks, end, lfree) && used_mem <= max_mem && b in live
      modifies `headers, `lfree, `used_mem, `blocks, `live
      ensures Book(headers, blocks, end, live, used_mem) && Coalesced(headers, blocks, end)
      ensures Hint(headers, blocks, end, lfree) && used_mem <= max_mem
      ensures old(Lowest(headers, blocks, end, lfree)) ==> Lowest(headers, blocks, end, lfree)
      ensures live == old(live) - {b}
    {
      hide *;
      Mark(b);
      PlugHoles(b);
    }

    /** rt_free of an allocated block, with the assertions of the code as the precondition. */
    method Free(p: nat)
      requires Valid() && (p == 0 || (p >= base + STRUCT && p - base - STRUCT in live))
      modifies `headers, `lfree, `used_mem, `blocks, `live
      ensures Valid() && (old(LowestFree()) ==> LowestFree())
      ensures p == 0 ==> headers == old(headers) && blocks == old(blocks) && lfree == old(lfree) && live == old(live)
      ensures p != 0 ==> live == old(live) - {p - base - STRUCT}
    {
      hide Book, Coalesced, Hint, Lowest;
      if p != 0 {
        FreeBlock(p - base - STRUCT);
      }
    }

    /** Freeing what was just allocated puts every header back. */
    method MallocFree(n: nat)
      requires Valid() && Searchable(n)
      modifies `headers, `lfree, `used_mem, `max_mem, `blocks, `live
      ensures Valid() && live == old(live) && blocks == old(blocks)
      ensures forall b :: b in blocks && b < end ==> b in headers && b in old(headers) && headers[b] == old(headers)[b]
    {
      hide Coalesced, Hint, Lowest, NoneFits, OnlyRestFree, Fits, FirstFits, Align, Tiled, Linked, Records, Roomy;
      ghost var hs, bs, was := headers, blocks, live;
      var p := Malloc(n);
      if p != 0 {
        Free(p);
        assert live == was;
      }
      Canonical(hs, bs, headers, blocks, end, live);
    }

    // ---- rt_realloc ----

    /** The shrinking branch. The freed tail may lie below lfree, which is not lowered: the pointer stays
        the lowest free block if and only if the tail is above it or joins a free block behind it. */
    method Shrink(b: nat, newsize: nat)
      requires Valid() && b in live && newsize > 0 && newsize % ALIGN == 0 &&
          newsize + STRUCT + MIN_SIZE < live[b] - STRUCT
      modifies `headers, `lfree, `used_mem, `blocks, `live
      ensures Valid() && live == old(live)[b := STRUCT + newsize]
      ensures old(LowestFree()) ==>
                (LowestFree() <==> !old(b + STRUCT + newsize < lfree && BehindUsed(headers, b)))
    {
      hide Book, Coalesced, CoalescedBut, Hint, Lowest, NewFree, BehindUsed, Split, Unused;
      ghost var hs0, blocks0, live0, used0, lfree0 := headers, blocks, live, used_mem, lfree;
      LiveIn(headers, blocks, end, live, used_mem, b);
      AlignedBlock(headers, blocks, end, live, used_mem, b);
      var p: nat := b + STRUCT + newsize;
      CutTail(b, p);
      ghost var hs1 := headers;
      PlugHoles(p);
      TailHint(hs0, hs1, headers, blocks0, blocks0 + {p}, blocks, end, live0, used0, lfree0, lfree, b, p);
    }

    // A header for the tail of b
    method CutTail(b: nat, p: nat)
      requires Book(headers, blocks, end, live, used_mem) && Coalesced(headers, blocks, end) &&
          Hint(headers, blocks, end, lfree)
      requires b in live && b in headers && headers[b].used && headers[b].next in headers
      requires b + STRUCT < p && p + STRUCT <= headers[b].next && p % ALIGN == 0
      modifies `headers, `used_mem, `blocks, `live
      ensures Book(headers, blocks, end, live, used_mem) && CoalescedBut(headers, blocks, end, p) &&
          Hint(headers, blocks, end, lfree)
      ensures used_mem <= old(used_mem) && live == old(live)[b := p - b] && blocks == old(blocks) + {p}
      ensures NewFree(old(headers), old(blocks), headers, blocks, b, p) && Unused(headers, blocks, p) && p < end
      ensures p in headers && headers[p] == Header(false, old(headers)[b].next, b) && b in headers && headers[b].used
    {
      hide *;
      var next := headers[b].next;
      var hs := headers[p := Header(false, next, b)];
      hs := hs[b := headers[b].(next := p, used := true)];
      if next != end {
        hs := hs[next := hs[next].(prev := p)];
      }
      SplitIs(headers, hs, end, b, p);
      TailReleased(headers, hs, blocks, end, live, used_mem, b, p);
      HintKept(headers, hs, blocks, blocks + {p}, end, lfree, b, p);
      headers, used_mem := hs, used_mem - (next - p);
      blocks, live := blocks + {p}, live[b := p - b];
    }

    ghost predicate Payload(p: nat)
      reads this
    {
      p >= base + STRUCT && p - base - STRUCT in live
    }

    // The block keeps its place: its payload is the rounded size, or longer by more than a header and MIN_SIZE bytes
    ghost predicate Stays(p: nat, n: nat)
      requires n < WORD && Payload(p)
      reads this
    {
      var payload := live[p - base - STRUCT] - STRUCT;
      payload == Align(n) || payload > Align(n) + STRUCT + MIN_SIZE
    }

    // Enough is cut off the block at p, below lfree, and nothing free is behind it
    ghost predicate LeavesHint(p: nat, n: nat)
      requires n < WORD
      reads this
    {
      && 0 < Align(n) <= size && Payload(p) && live[p - base - STRUCT] - STRUCT > Align(n) + STRUCT + MIN_SIZE
      && p - base + Align(n) < lfree && BehindUsed(headers, p - base - STRUCT)
    }

    /** rt_realloc: in place when the size is right or enough can be cut off; else, also when the block is long
        enough, malloc, copy and free. */
    method Realloc(p: nat, n: nat) returns (r: nat)
      requires Valid() && n < WORD
      requires p == 0 || Payload(p) || (Align(n) != 0 && (p < base || p >= base + end))
      requires Align(n) == 0 || Align(n) > size || size >= MIN_SIZE || (p != 0 && !Payload(p))
      modifies `headers, `lfree, `used_mem, `max_mem, `blocks, `live
      ensures Valid()
      ensures Align(n) > size ==> r == 0
      ensures Align(n) == 0 ==> r == 0 && live == if p == 0 then old(live) else old(live) - {p - base - STRUCT}
      ensures r == 0 && Align(n) != 0 ==> live == old(live) && headers == old(headers)
      ensures 0 < Align(n) <= size && old(Payload(p)) ==>
                var payload := old(live)[p - base - STRUCT] - STRUCT;
                (r == p <==> payload == Align(n) || payload > Align(n) + STRUCT + MIN_SIZE)
      ensures 0 < Align(n) <= size && old(p == 0 || (Payload(p) && !Stays(p, n))) ==>
                (r == 0 <==> old(NoneFits(headers, blocks, lfree, size - Need(n), Need(n))))
      ensures r != 0 && p != 0 && !old(Payload(p)) ==> r == p && live == old(live) && headers == old(headers)
      ensures r != 0 && (p == 0 || old(Payload(p))) ==>
                && Payload(r) && live[r - base - STRUCT] >= Align(n) + STRUCT
                && live == (if p == 0 then old(live) else old(live) - {p - base - STRUCT})[r - base - STRUCT :=
                    live[r - base - STRUCT]]
                && (r == p || r - base - STRUCT !in old(live))
      ensures old(LowestFree()) ==> (LowestFree() <==> !old(LeavesHint(p, n)))
    {
      hide Book, Coalesced, Hint, Lowest, NoneFits, OnlyRestFree, Fits, Align;
      var newsize := Align(n);
      if newsize > size {
        return 0;
      } else if newsize == 0 {
        Free(p);
        return 0;
      }
      AlignTwice(n);
      if p == 0 {
        r := Malloc(newsize);
        return;
      }
      if Payload(p) {
        LiveIn(headers, blocks, end, live, used_mem, p - base - STRUCT);
      }
      if p < base || p >= base + end {
        return p;
      }
      var b := p - base - STRUCT;
      var payload := headers[b].next - b - STRUCT;
      if payload == newsize {
        return p;
      }
      if newsize + STRUCT + MIN_SIZE < payload {
        Shrink(b, newsize);
        return p;
      }
      r := Malloc(newsize);
      if r != 0 {
        Free(p);
      }
    }
  }

  // There is one free block, f, and it reaches to n
  ghost predicate OnlyFree(hs: Headers, blocks: set<nat>, f: nat, n: nat) {
    Unused(hs, blocks, f) && hs[f].next == n && forall c :: Unused(hs, blocks, c) ==> c == f
  }

  lemma FreshOnly(hs: Headers, blocks: set<nat>, end: nat, used_mem: nat)
    requires Book(hs, blocks, end, map[], used_mem) && Coalesced(hs, blocks, end) && end > 0
    ensures OnlyFree(hs, blocks, 0, end)
  {
    EmptyHeap(hs, blocks, end);
    EndUsed(hs, blocks, end);
  }

  lemma OneFound(hs: Headers, blocks: set<nat>, end: nat, lfree: nat, f: nat, need: nat, limit: nat)
    requires OnlyFree(hs, blocks, f, end) && Lowest(hs, blocks, end, lfree) && f + STRUCT + need <= end && f < limit
    ensures !NoneFits(hs, blocks, lfree, limit, need)
  {
    assert Fits(hs, blocks, f, need);
  }

  lemma OneTaken(hs: Headers, blocks: set<nat>, live: map<nat, nat>, hs': Headers, blocks': set<nat>,
      live': map<nat, nat>, end: nat, lfree: nat, b: nat, need: nat, f: nat)
    requires OnlyFree(hs, blocks, f, end) && FirstFits(hs, blocks, lfree, b, need)
    requires Took(hs, blocks, live, hs', blocks', live', b, need) && f + STRUCT + need + STRUCT + MIN_SIZE <= end
    ensures b == f && live' == live[f := need + STRUCT] && OnlyFree(hs', blocks', f + STRUCT + need, end)
  {
    assert Unused(hs, blocks, b);
    assert Splits(hs, b, need) && RestOf(hs, hs', blocks', b, b + STRUCT + need);
    forall c | Unused(hs', blocks', c)
      ensures c == f + STRUCT + need
    {
      assert c != b ==> !Unused(hs, blocks, c);
    }
  }

  lemma HintIsFree(hs: Headers, blocks: set<nat>, end: nat, lfree: nat, f: nat)
    requires OnlyFree(hs, blocks, f, end) && Hint(hs, blocks, end, lfree) && Lowest(hs, blocks, end, lfree) && f < end
    ensures lfree == f
  {
    assert lfree <= f;
  }

  lemma NextUsed(hs: Headers, blocks: set<nat>, end: nat, live: map<nat, nat>, used_mem: nat, b: nat)
    requires Book(hs, blocks, end, live, used_mem) && b in live && b + live[b] in live
    ensures BehindUsed(hs, b)
  {
    hide Book;
    LiveIn(hs, blocks, end, live, used_mem, b);
    LiveIn(hs, blocks, end, live, used_mem, b + live[b]);
  }

  /** lfree does get left behind: on a heap of 240 bytes, cutting the first of two blocks down to 16 bytes makes a
      free block at 40 while lfree is at 168. */
  method ReallocLeavesHint(heap_ptr: nat) returns (h: SmallHeap)
    requires heap_ptr > 0
    ensures fresh(h) && h.Valid() && !h.LowestFree()
  {
    hide Book, Coalesced, Hint, Lowest, NoneFits, FirstFits, Took, OnlyFree, BehindUsed;
    h := new SmallHeap(heap_ptr, 240);
    FreshOnly(h.headers, h.blocks, h.end, h.used_mem);
    OneFound(h.headers, h.blocks, h.end, h.lfree, 0, 96, 144);
    ghost var hs, bs, lf := h.headers, h.blocks, h.lfree;
    var p := h.Malloc(96);
    OneTaken(hs, bs, map[], h.headers, h.blocks, h.live, h.end, lf, p - heap_ptr - STRUCT, 96, 0);
    OneFound(h.headers, h.blocks, h.end, h.lfree, 120, 24, 216);
    hs, bs, lf := h.headers, h.blocks, h.lfree;
    var q := h.Malloc(24);
    OneTaken(hs, bs, map[0 := 120], h.headers, h.blocks, h.live, h.end, lf, q - heap_ptr - STRUCT, 24, 120);
    HintIsFree(h.headers, h.blocks, h.end, h.lfree, 168);
    NextUsed(h.headers, h.blocks, h.end, h.live, h.used_mem, 0);
    var r := h.Realloc(p, 16);
  }
}
