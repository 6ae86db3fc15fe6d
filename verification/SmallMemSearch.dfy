/** The search of rt_malloc, rt-thread/src/mem.c:305-311, as a walk over offsets that nobody promises to end. */
module SmallMemSearch {
  import opened SmallMemRep
  import opened Tiling

  // mem_size_aligned - size in rt_size_t
  function Bound(size: nat, need: nat): (r: nat)
    ensures need <= size < WORD ==> r == size - need
  {
    (size as int - need) % WORD
  }

  // The loop steps over ptr: the test holds and the block there does not fit
  ghost predicate Goes(hs: Headers, size: nat, need: nat, ptr: nat) {
    ptr < Bound(size, need) && ptr in hs && (hs[ptr].used || (hs[ptr].next - (ptr + STRUCT)) % WORD < need)
  }

  // ptr after k rounds
  ghost function Walk(hs: Headers, ptr: nat, k: nat): nat
    decreases k
  {
    if k == 0 || ptr !in hs then ptr else Walk(hs, hs[ptr].next, k - 1)
  }

  ghost predicate SearchEnds(hs: Headers, size: nat, need: nat, ptr: nat) {
    exists k: nat :: !Goes(hs, size, need, Walk(hs, ptr, k))
  }

  // What the walk needs to know about a heap
  ghost predicate Walkable(hs: Headers, blocks: set<nat>, end: nat) {
    && (forall b :: b in blocks && b < end ==> b in hs && hs[b].next in blocks && b + STRUCT <= hs[b].next <= end)
    && (forall b :: b in blocks ==> b <= end)
    && end in hs && hs[end].next == end && hs[end].used
  }

  lemma BookWalkable(hs: Headers, blocks: set<nat>, end: nat, live: map<nat, nat>, used_mem: nat)
    requires Book(hs, blocks, end, live, used_mem)
    ensures Walkable(hs, blocks, end)
  {
    EndUsed(hs, blocks, end);
    AllBelow(hs, blocks, end);
    forall b | b in blocks && b < end
      ensures b in hs && hs[b].next in blocks && b + STRUCT <= hs[b].next <= end
    {
      Room(hs, blocks, end, live, used_mem, b);
    }
    hide Tiled, Linked, Records, Roomy;
  }

  // With the right bound the offsets grow until they reach it
  lemma {:induction false} WalkEnds(hs: Headers, blocks: set<nat>, end: nat, size: nat, need: nat, ptr: nat)
      returns (k: nat)
    requires Walkable(hs, blocks, end) && ptr in blocks && end == size + STRUCT < WORD && need <= size
    ensures !Goes(hs, size, need, Walk(hs, ptr, k))
    decreases end - ptr
  {
    k := 0;
    if Goes(hs, size, need, ptr) {
      k := WalkEnds(hs, blocks, end, size, need, hs[ptr].next);
      k := k + 1;
    }
  }

  // Within the heap no block holds more than the heap, and a wrapped bound lies behind it
  lemma {:induction false} WalkGoesOn(hs: Headers, blocks: set<nat>, end: nat, size: nat, need: nat, ptr: nat, k: nat)
    requires Walkable(hs, blocks, end) && ptr in blocks && end == size + STRUCT && size < need < WORD - STRUCT
    ensures Walk(hs, ptr, k) in blocks && Goes(hs, size, need, Walk(hs, ptr, k))
    decreases k
  {
    if k > 0 {
      assert hs[ptr].next in blocks;
      WalkGoesOn(hs, blocks, end, size, need, hs[ptr].next, k - 1);
    } else if ptr < end {
      assert hs[ptr].next - (ptr + STRUCT) <= size;
    }
  }

  /** The search comes to an end exactly when the bound does not wrap. */
  lemma SearchEndsIff(hs: Headers, blocks: set<nat>, end: nat, live: map<nat, nat>, used_mem: nat, lfree: nat,
      size: nat, need: nat)
    requires Book(hs, blocks, end, live, used_mem) && Hint(hs, blocks, end, lfree) && end == size + STRUCT &&
        end + STRUCT <= WORD
    requires need <= size || need < WORD - STRUCT
    ensures SearchEnds(hs, size, need, lfree) <==> need <= size
  {
    BookWalkable(hs, blocks, end, live, used_mem);
    EndUsed(hs, blocks, end);
    hide Book, Walkable, Goes, Walk;
    if need <= size {
      var k := WalkEnds(hs, blocks, end, size, need, lfree);
    } else {
      forall k: nat
        ensures Goes(hs, size, need, Walk(hs, lfree, k))
      {
        WalkGoesOn(hs, blocks, end, size, need, lfree, k);
      }
    }
  }

  /** Once at heap_end the walk stays there. */
  lemma {:induction false} WalkStays(hs: Headers, end: nat, k: nat)
    requires end in hs && hs[end].next == end
    ensures Walk(hs, end, k) == end
  {
    if k > 0 {
      WalkStays(hs, end, k - 1);
    }
  }

  /** A fresh heap of 8 bytes: a request of one byte, raised to MIN_SIZE_ALIGNED, never ends. After one round the
      walk is at heap_end, and every further round stays there. */
  lemma TinyHeapSearchesForEver(k: nat)
    ensures var hs := map[0 := Header(false, 8 + STRUCT, 0), 8 + STRUCT := Header(true, 8 + STRUCT, 8 + STRUCT)];
            && Align(1) == 8
            && Walk(hs, 0, k) == (if k == 0 then 0 else 8 + STRUCT)
            && Goes(hs, 8, MIN_SIZE, Walk(hs, 0, k))
  {
    var hs := map[0 := Header(false, 8 + STRUCT, 0), 8 + STRUCT := Header(true, 8 + STRUCT, 8 + STRUCT)];
    if k > 0 {
      WalkStays(hs, 8 + STRUCT, k - 1);
    }
  }
}
