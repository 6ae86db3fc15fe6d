/** The heap of rt-thread/src/mem.c as data: a tiling with a pointer to the lowest free block. */
module SmallMemRep {
  import opened MapSum
  import opened Tiling

  const ALIGN: nat := 8        // RT_ALIGN_SIZE
  const STRUCT: nat := 24      // SIZEOF_STRUCT_MEM on a 64-bit target
  const MIN_SIZE: nat := 24    // MIN_SIZE_ALIGNED
  const WORD: nat := 0x1_0000_0000_0000_0000

  // RT_ALIGN in rt_size_t arithmetic
  function Align(size: nat): (r: nat)
    requires size < WORD
    ensures r % ALIGN == 0
  {
    (size + (ALIGN - 1)) % WORD / ALIGN * ALIGN
  }

  /** The rounding loses nothing unless it wraps. */
  lemma AlignCovers(size: nat)
    requires size < WORD
    ensures Align(size) >= size <==> size <= WORD - ALIGN
    ensures size <= WORD - ALIGN ==> Align(size) < size + ALIGN
  {
  }

  // lfree is a free block or heap_end
  ghost predicate Hint(hs: Headers, blocks: set<nat>, end: nat, lfree: nat) {
    lfree == end || Unused(hs, blocks, lfree)
  }

  // No free block lies below lfree
  ghost predicate Lowest(hs: Headers, blocks: set<nat>, end: nat, lfree: nat) {
    forall b :: Unused(hs, blocks, b) ==> lfree <= b
  }

  // ---- the bookkeeping ----

  // Blocks are aligned and hold their headers, used ones hold something, plug_holes stops at the first, and
  // heap_end leads to itself
  ghost predicate Shape(hs: Headers, blocks: set<nat>, end: nat, live: map<nat, nat>) {
    && Roomy(hs, blocks, end, STRUCT) && 0 in hs && hs[0].prev == 0 && end in hs && hs[end].next == end
    && (forall b :: b in blocks ==> b % ALIGN == 0)
    && (forall b :: b in live ==> live[b] > STRUCT)
  }

  ghost predicate Book(hs: Headers, blocks: set<nat>, end: nat, live: map<nat, nat>, used_mem: nat) {
    && Tiled(hs, blocks, end) && Linked(hs, blocks, end) && Records(hs, blocks, end, live) &&
        Shape(hs, blocks, end, live)
    && used_mem == Sum(live)
  }

  lemma ShapeKept(hs: Headers, hs': Headers, blocks: set<nat>, blocks': set<nat>, end: nat, live: map<nat, nat>,
      live': map<nat, nat>, b: nat, p: nat)
    requires Shape(hs, blocks, end, live) && blocks <= hs.Keys && KeepsBut(hs, hs', blocks, b) && b in blocks
    requires b != end && end in blocks && forall c :: c in blocks' ==> c in blocks || c == p
    requires b in hs' && b + STRUCT <= hs'[b].next && p % ALIGN == 0 &&
        (p in hs' && p in blocks' ==> p + STRUCT <= hs'[p].next)
    requires 0 in hs' && hs'[0].prev == 0
    requires forall c :: c in live' ==> (c in live && live'[c] == live[c]) || live'[c] > STRUCT
    ensures Shape(hs', blocks', end, live')
  {
    RoomyKept(hs, hs', blocks, blocks', end, STRUCT, b, p);
    hide Roomy;
  }

  lemma Room(hs: Headers, blocks: set<nat>, end: nat, live: map<nat, nat>, used_mem: nat, b: nat)
    requires Book(hs, blocks, end, live, used_mem) && b in blocks && b < end
    ensures b in hs && b + STRUCT <= hs[b].next <= end && hs[b].next in blocks && hs[b].next in hs && b % ALIGN == 0
    ensures blocks <= hs.Keys && 0 in hs && hs[0].prev == 0 && end in blocks
  {
    NextIn(hs, blocks, end, b);
    EndUsed(hs, blocks, end);
    BlocksHaveHeaders(hs, blocks, end);
    hide Tiled, Linked, Records;
  }

  /** With nothing allocated the heap is the single block rt_system_heap_init made. */
  lemma EmptyHeap(hs: Headers, blocks: set<nat>, end: nat)
    requires Sound(hs, blocks, end, map[]) && end > 0 && 0 in hs && hs[0].prev == 0
    ensures blocks == {0, end} && 0 in hs && hs[0] == Header(false, end, 0)
  {
    var hs0 := map[0 := Header(false, end, 0), end := Header(true, end, end)];
    assert Fine(hs0, 0);
    assert Tiled(hs0, {0, end}, end);
    Canonical(hs, blocks, hs0, {0, end}, end, map[]);
  }

  /** Two free neighbours become one. */
  lemma AbsorbOk(hs: Headers, blocks: set<nat>, end: nat, live: map<nat, nat>, used_mem: nat, b: nat)
    requires Book(hs, blocks, end, live, used_mem) && b in blocks && b < end && b in hs && hs[b].next in hs
    requires hs[b].next in blocks && hs[b].next < end && !hs[b].used && !hs[hs[b].next].used
    ensures hs[hs[b].next].next in hs
    ensures Book(Merge(hs, b), blocks - {hs[b].next}, end, live, used_mem)
    ensures Absorbed(hs, blocks, Merge(hs, b), blocks - {hs[b].next}, b)
  {
    hide Tiled, Linked, Records, Shape, Merge, KeepsBut;
    Room(hs, blocks, end, live, used_mem, b);
    Room(hs, blocks, end, live, used_mem, hs[b].next);
    MergeOk(hs, blocks, end, live, b);
    MergeFirst(hs, b);
    ShapeKept(hs, Merge(hs, b), blocks, blocks - {hs[b].next}, end, live, live, b, b);
  }

  // plug_holes looks in front of a block
  lemma InFront(hs: Headers, blocks: set<nat>, end: nat, live: map<nat, nat>, used_mem: nat, b: nat)
    requires Book(hs, blocks, end, live, used_mem) && b in blocks && b < end
    ensures b in hs && hs[b].prev in blocks && hs[b].prev in hs
    ensures if b == 0 then hs[b].prev == b else hs[b].prev < b && hs[hs[b].prev].next == b
  {
    hide Tiled, Linked, Records, Roomy;
    EndUsed(hs, blocks, end);
    if b > 0 {
      PrevIn(hs, blocks, end, b);
    }
  }

  // ---- first fit ----

  ghost predicate Fits(hs: Headers, blocks: set<nat>, b: nat, need: nat) {
    b in blocks && b in hs && !hs[b].used && b + STRUCT + need <= hs[b].next
  }

  // No block the search looks at can hold `need` bytes
  ghost predicate NoneFits(hs: Headers, blocks: set<nat>, lfree: nat, limit: int, need: nat) {
    forall b: nat :: Fits(hs, blocks, b, need) ==> !(lfree <= b < limit)
  }

  // b is the first block at or behind lfree that fits
  ghost predicate FirstFits(hs: Headers, blocks: set<nat>, lfree: nat, b: nat, need: nat) {
    lfree <= b && Fits(hs, blocks, b, need) && NoneFits(hs, blocks, lfree, b, need)
  }

  /** What the search misses: with lfree lowest, a request fails if and only if the only block that
      could hold it, if there is one, ends at the end of the heap and would be filled exactly. */
  lemma SearchFailsIff(hs: Headers, blocks: set<nat>, end: nat, lfree: nat, need: nat)
    requires Tiled(hs, blocks, end) && Lowest(hs, blocks, end, lfree) && need + STRUCT <= end
    ensures NoneFits(hs, blocks, lfree, end as int - STRUCT - need, need)
       <==> forall b: nat :: Fits(hs, blocks, b, need) ==> b == end as int - STRUCT - need
  {
    hide Reaching, Apart;
    forall b: nat | Fits(hs, blocks, b, need)
      ensures b <= end as int - STRUCT - need && lfree <= b
    {
      assert Unused(hs, blocks, b);
      if b < end {
        NextIn(hs, blocks, end, b);
      }
    }
  }

  /** A fresh heap has one block of exactly mem_size_aligned bytes and never gives it out. */
  lemma WholeHeapRefused(size: nat)
    requires size >= MIN_SIZE && size % ALIGN == 0
    ensures var end := size + STRUCT;
            var hs := map[0 := Header(false, end, 0), end := Header(true, end, end)];
            Fits(hs, {0, end}, 0, size) && NoneFits(hs, {0, end}, 0, size - size, size)
  {
  }

  // ---- the steps of malloc, free and realloc ----

  /** The front of a free block is taken; the rest stays free. */
  lemma TakeFront(hs: Headers, hs': Headers, blocks: set<nat>, end: nat, live: map<nat, nat>, used_mem: nat, b: nat,
      p: nat)
    requires Book(hs, blocks, end, live, used_mem) && Coalesced(hs, blocks, end) && b in blocks && !hs[b].used &&
        b < end
    requires b + STRUCT < p && p + STRUCT <= hs[b].next && p % ALIGN == 0
    requires hs[b].next in hs && hs' == Split(hs, end, b, p, true)
    ensures b !in live && b in hs' && hs'[b].used && hs'[b].next == p
    ensures Book(hs', blocks + {p}, end, live[b := p - b], used_mem + (p - b)) && Coalesced(hs', blocks + {p}, end)
    ensures NewFree(hs, blocks, hs', blocks + {p}, b, p)
  {
    hide Tiled, Linked, Records, Shape, Split, Coalesced, CoalescedBut, KeepsBut;
    Room(hs, blocks, end, live, used_mem, b);
    SplitTiles(hs, blocks, end, end, b, p, true);
    SplitEffect(hs, blocks, end, b, p, true);
    SplitFirst(hs, end, b, p, true);
    BlocksHaveHeaders(hs', blocks + {p}, end);
    SplitRecords(hs, hs', blocks, end, live, b, p);
    SplitCoalesced(hs, hs', blocks, end, b, p);
    ShapeKept(hs, hs', blocks, blocks + {p}, end, live, live[b := p - b], b, p);
    NotLive(hs, blocks, end, live, b);
    SumAdd(live, b, p - b);
  }

  /** A free block is taken as a whole. */
  lemma TakeWhole(hs: Headers, hs': Headers, blocks: set<nat>, end: nat, live: map<nat, nat>, used_mem: nat, b: nat)
    requires Book(hs, blocks, end, live, used_mem) && Coalesced(hs, blocks, end) && b in blocks && !hs[b].used &&
        b < end
    requires b + STRUCT < hs[b].next && hs' == hs[b := hs[b].(used := true)]
    ensures b !in live && b < hs[b].next
    ensures Book(hs', blocks, end, live[b := hs[b].next - b], used_mem + (hs[b].next - b)) &&
        Coalesced(hs', blocks, end)
    ensures NewFreeNone(hs, blocks, hs', b)
  {
    hide Tiled, Linked, Records, Shape, Split, Coalesced, CoalescedBut, KeepsBut;
    Room(hs, blocks, end, live, used_mem, b);
    FlipTiles(hs, hs', blocks, end, b, true);
    BlocksHaveHeaders(hs', blocks, end);
    TakeRecords(hs, blocks, end, live, b);
    ShapeKept(hs, hs', blocks, blocks, end, live, live[b := hs[b].next - b], b, b);
    NotLive(hs, blocks, end, live, b);
    SumAdd(live, b, hs[b].next - b);
  }

  lemma NotLive(hs: Headers, blocks: set<nat>, end: nat, live: map<nat, nat>, b: nat)
    requires Records(hs, blocks, end, live) && b in blocks && b in hs && b < end
    ensures hs[b].used <==> b in live
    ensures b in live ==> live[b] == hs[b].next - b
  {
  }

  lemma LiveIn(hs: Headers, blocks: set<nat>, end: nat, live: map<nat, nat>, used_mem: nat, b: nat)
    requires Book(hs, blocks, end, live, used_mem) && b in live
    ensures b in hs && b in blocks && b + STRUCT < end && live[b] == hs[b].next - b && live[b] <= used_mem
    ensures hs[b].used && hs[b].next in hs && b + STRUCT <= hs[b].next
  {
    hide Tiled, Linked, Roomy;
    SumRemove(live, b);
    Room(hs, blocks, end, live, used_mem, b);
  }

  /** A used block is marked free; its neighbours are not looked at yet. */
  lemma Released(hs: Headers, hs': Headers, blocks: set<nat>, end: nat, live: map<nat, nat>, used_mem: nat, b: nat)
    requires Book(hs, blocks, end, live, used_mem) && Coalesced(hs, blocks, end) && b in live
    requires b in hs && hs' == hs[b := hs[b].(used := false)]
    ensures b in blocks && b < end && hs[b].used && live[b] == hs[b].next - b && live[b] <= used_mem
    ensures Book(hs', blocks, end, live - {b}, used_mem - live[b]) && CoalescedBut(hs', blocks, end, b)
    ensures NewFree(hs, blocks, hs', blocks, b, b) && Unused(hs', blocks, b)
  {
    hide Tiled, Linked, Records, Shape, Split, Coalesced, CoalescedBut, KeepsBut;
    LiveIn(hs, blocks, end, live, used_mem, b);
    Room(hs, blocks, end, live, used_mem, b);
    FlipTiles(hs, hs', blocks, end, b, false);
    BlocksHaveHeaders(hs', blocks, end);
    FreeRecords(hs, blocks, end, live, b);
    ShapeKept(hs, hs', blocks, blocks, end, live, live - {b}, b, b);
    SumRemove(live, b);
  }

  /** The tail of a used block is given back. */
  lemma TailReleased(hs: Headers, hs': Headers, blocks: set<nat>, end: nat, live: map<nat, nat>, used_mem: nat, b: nat,
      p: nat)
    requires Book(hs, blocks, end, live, used_mem) && Coalesced(hs, blocks, end) && b in live && b in hs
    requires b + STRUCT < p && p + STRUCT <= hs[b].next && p % ALIGN == 0
    requires hs[b].next in hs && hs' == Split(hs, end, b, p, true)
    ensures b in blocks && live[b] == hs[b].next - b && hs[b].next - p <= used_mem
    ensures Book(hs', blocks + {p}, end, live[b := p - b], used_mem - (hs[b].next - p)) &&
        CoalescedBut(hs', blocks + {p}, end, p)
    ensures NewFree(hs, blocks, hs', blocks + {p}, b, p) && p !in blocks && Unused(hs', blocks + {p}, p)
    ensures p in hs' && p < end && hs'[p] == Header(false, hs[b].next, b) && b in hs' && hs'[b].used
    ensures hs[b].next in hs' && hs'[hs[b].next].used == hs[hs[b].next].used
  {
    hide Tiled, Linked, Records, Shape, Split, Coalesced, CoalescedBut, KeepsBut;
    LiveIn(hs, blocks, end, live, used_mem, b);
    Room(hs, blocks, end, live, used_mem, b);
    SplitTiles(hs, blocks, end, end, b, p, true);
    SplitEffect(hs, blocks, end, b, p, true);
    SplitFirst(hs, end, b, p, true);
    BlocksHaveHeaders(hs', blocks + {p}, end);
    SplitRecords(hs, hs', blocks, end, live, b, p);
    SplitCoalesced(hs, hs', blocks, end, b, p);
    EndKept(hs, hs', blocks, end, b);
    ShapeKept(hs, hs', blocks, blocks + {p}, end, live, live[b := p - b], b, p);
    SumUpdate(live, b, p - b);
  }

  // The rest of block b can hold a header and MIN_SIZE_ALIGNED bytes
  ghost predicate Splits(hs: Headers, b: nat, need: nat) {
    b in hs && hs[b].next - (b + STRUCT) >= need + STRUCT + MIN_SIZE
  }

  /** Block b was free and now holds a request: it is as large as asked for and its rest is free, or it is whole;
      no other used block changed, and only its rest may be newly free. */
  ghost predicate Took(hs: Headers, blocks: set<nat>, live: map<nat, nat>,
                       hs': Headers, blocks': set<nat>, live': map<nat, nat>, b: nat, need: nat) {
    && b in hs && b + STRUCT + need <= hs[b].next && b !in live && b in live' && b in blocks'
    && live' == live[b := if Splits(hs, b, need) then need + STRUCT else hs[b].next - b]
    && need + STRUCT <= live'[b] < need + STRUCT + STRUCT + MIN_SIZE
    && (Splits(hs, b, need) ==> RestOf(hs, hs', blocks', b, b + STRUCT + need))
    && OnlyRestFree(hs, blocks, hs', blocks', b, b + STRUCT + need)
    && NewRoom(hs, blocks, hs', blocks')
  }

  // What is newly free can hold a request
  ghost predicate NewRoom(hs: Headers, blocks: set<nat>, hs': Headers, blocks': set<nat>) {
    forall c: nat :: Unused(hs', blocks', c) && !Unused(hs, blocks, c) ==> c + STRUCT + MIN_SIZE <= hs'[c].next
  }

  /** That is: the block that was taken lasts at least as long as asked for, by less than what could be split off; the
      free blocks are those from before but for it, and what was split off, which can hold MIN_SIZE_ALIGNED bytes. */
  lemma TookMeans(hs: Headers, blocks: set<nat>, live: map<nat, nat>, hs': Headers, blocks': set<nat>,
      live': map<nat, nat>, b: nat, need: nat)
    requires Took(hs, blocks, live, hs', blocks', live', b, need)
    ensures b !in live && b in live' && live' == live[b := live'[b]]
    ensures need + 24 <= live'[b] < need + 24 + 24 + 24
    ensures forall c :: Unused(hs', blocks', c) ==>
              c == b + 24 + need || (c != b && Unused(hs, blocks, c))
    ensures forall c: nat :: Unused(hs', blocks', c) && !Unused(hs, blocks, c) ==> c + 24 + 24 <= hs'[c].next
    ensures b in hs
    ensures live'[b] < hs[b].next - b ==>
              Unused(hs', blocks', b + live'[b]) && hs'[b + live'[b]].next == hs[b].next
  {
  }

  ghost predicate RestOf(hs: Headers, hs': Headers, blocks': set<nat>, b: nat, rest: nat) {
    b in hs && Unused(hs', blocks', rest) && hs'[rest].next == hs[b].next
  }

  ghost predicate OnlyRestFree(hs: Headers, blocks: set<nat>, hs': Headers, blocks': set<nat>, b: nat, rest: nat) {
    && blocks <= hs.Keys && blocks' <= hs'.Keys
    && (forall c :: Unused(hs', blocks', c) ==> c == rest || (c != b && Unused(hs, blocks, c)))
    && (forall c :: Unused(hs, blocks, c) && c != b ==> Unused(hs', blocks', c))
  }

  lemma FrontTook(hs: Headers, blocks: set<nat>, live: map<nat, nat>, hs': Headers, b: nat, need: nat)
    requires NewFree(hs, blocks, hs', blocks + {b + STRUCT + need}, b, b + STRUCT + need) && b !in live && b in blocks
    requires Splits(hs, b, need) && b + STRUCT + need in hs' && hs'[b + STRUCT + need].next == hs[b].next
    ensures Took(hs, blocks, live, hs', blocks + {b + STRUCT + need}, live[b := STRUCT + need], b, need)
  {
  }

  lemma WholeTook(hs: Headers, blocks: set<nat>, live: map<nat, nat>, hs': Headers, b: nat, need: nat, n: nat)
    requires NewFreeNone(hs, blocks, hs', b) && b !in live && b in blocks && b in hs && n == hs[b].next - b
    requires need + STRUCT <= n < need + STRUCT + STRUCT + MIN_SIZE
    ensures Took(hs, blocks, live, hs', blocks, live[b := n], b, need)
  {
  }

  lemma TakeSplitOk(hs: Headers, blocks: set<nat>, end: nat, live: map<nat, nat>, used_mem: nat, b: nat, need: nat)
    requires Book(hs, blocks, end, live, used_mem) && Coalesced(hs, blocks, end) && b in blocks && b in hs &&
        !hs[b].used
    requires b < end && need > 0 && Splits(hs, b, need) && b + STRUCT + need + STRUCT <= hs[b].next &&
        need % ALIGN == 0 && hs[b].next in hs
    ensures var p: nat, hs', live' := b + STRUCT + need, Split(hs, end, b, b + STRUCT + need, true),
        live[b := STRUCT + need];
            && Book(hs', blocks + {p}, end, live', used_mem + (need + STRUCT)) && Coalesced(hs', blocks + {p}, end)
            && Took(hs, blocks, live, hs', blocks + {p}, live', b, need)
  {
    hide *;
    var p: nat := b + STRUCT + need;
    AlignedBlock(hs, blocks, end, live, used_mem, b);
    AlignedSum(b, need);
    TakeFront(hs, Split(hs, end, b, p, true), blocks, end, live, used_mem, b, p);
    SplitHeader(hs, end, b, need);
    FrontTook(hs, blocks, live, Split(hs, end, b, p, true), b, need);
  }

  lemma SplitHeader(hs: Headers, end: nat, b: nat, need: nat)
    requires b in hs && hs[b].next in hs && b + STRUCT + need + STRUCT <= hs[b].next
    ensures var p: nat, hs' := b + STRUCT + need, Split(hs, end, b, b + STRUCT + need, true);
            p in hs' && hs'[p].next == hs[b].next
  {
  }

  lemma AlignedSum(b: nat, need: nat)
    requires b % ALIGN == 0 && need % ALIGN == 0
    ensures (b + STRUCT + need) % ALIGN == 0
  {
  }

  lemma AlignedBlock(hs: Headers, blocks: set<nat>, end: nat, live: map<nat, nat>, used_mem: nat, b: nat)
    requires Book(hs, blocks, end, live, used_mem) && b in blocks
    ensures b % ALIGN == 0
  {
    hide Tiled, Linked, Records, Roomy;
  }

  // The assignments that make mem2
  lemma SplitIs(hs: Headers, hs': Headers, end: nat, b: nat, p: nat)
    requires b in hs && hs[b].next in hs
    requires var hs1 := hs[p := Header(false, hs[b].next, b)][b := hs[b].(next := p, used := true)];
             hs' == if hs[b].next == end then hs1 else hs1[hs[b].next := hs1[hs[b].next].(prev := p)]
    ensures hs' == Split(hs, end, b, p, true)
  {
  }

  // The search steps over a block that does not fit
  lemma FitStep(hs: Headers, blocks: set<nat>, end: nat, lfree: nat, b: nat, need: nat)
    requires Tiled(hs, blocks, end) && b in blocks && b < end && b in hs && !Fits(hs, blocks, b, need)
    requires NoneFits(hs, blocks, lfree, b, need)
    ensures NoneFits(hs, blocks, lfree, hs[b].next, need)
  {
    forall c: nat | Fits(hs, blocks, c, need)
      ensures !(lfree <= c < hs[b].next)
    {
      if b < c {
        NoneBetween(hs, blocks, end, b, c);
      }
    }
  }

  // lfree after b was taken and perhaps a free rest at r came into being
  lemma AfterTake(hs: Headers, blocks: set<nat>, hs': Headers, blocks': set<nat>, end: nat, lfree: nat, b: nat, r: nat)
    requires Hint(hs, blocks, end, lfree) && Unused(hs, blocks, b) && b in blocks' && b < r
    requires OnlyRestFree(hs, blocks, hs', blocks', b, r)
    ensures lfree != b ==> Hint(hs', blocks', end, lfree)
    ensures Lowest(hs, blocks, end, lfree) ==> Lowest(hs', blocks', end, lfree)
  {
  }

  // lfree after b was marked free
  lemma AfterFree(hs: Headers, hs': Headers, blocks: set<nat>, end: nat, lfree: nat, b: nat)
    requires Hint(hs, blocks, end, lfree)
    requires NewFree(hs, blocks, hs', blocks, b, b)
    ensures Hint(hs', blocks, end, if b < lfree then b else lfree)
    ensures Lowest(hs, blocks, end, lfree) ==> Lowest(hs', blocks, end, if b < lfree then b else lfree)
  {
  }

  // ---- lfree after a block was shortened ----

  ghost predicate BehindUsed(hs: Headers, b: nat) {
    b in hs && hs[b].next in hs && hs[hs[b].next].used
  }

  lemma HintKept(hs: Headers, hs': Headers, blocks: set<nat>, blocks': set<nat>, end: nat, lfree: nat, b: nat, p: nat)
    requires Hint(hs, blocks, end, lfree) && NewFree(hs, blocks, hs', blocks', b, p) && b in hs && hs[b].used
    ensures Hint(hs', blocks', end, lfree)
  {
  }

  // hs1 is hs0 with the tail p of b marked free, hs2 is hs1 after plug_holes(p)
  lemma TailHint(hs0: Headers, hs1: Headers, hs2: Headers, blocks0: set<nat>, blocks1: set<nat>, blocks2: set<nat>,
      end: nat,
                 live: map<nat, nat>, used_mem: nat, lfree: nat, lfree': nat, b: nat, p: nat)
    requires Book(hs0, blocks0, end, live, used_mem) && Hint(hs0, blocks0, end, lfree) && b in blocks0 && b < p < end &&
        b in hs0 && hs0[b].used && p < hs0[b].next
    requires NewFree(hs0, blocks0, hs1, blocks1, b, p)
    requires forall c :: Unused(hs2, blocks2, c) ==> Unused(hs1, blocks1, c)
    requires Unused(hs2, blocks2, p) && lfree' == if lfree == hs0[b].next && hs0[b].next < end then p else lfree
    ensures Lowest(hs0, blocks0, end, lfree) ==> (Lowest(hs2, blocks2, end, lfree') <==>
        !(p < lfree && BehindUsed(hs0, b)))
  {
    hide *;
    BehindFree(hs0, blocks0, end, live, used_mem, lfree, b);
    LowestAfter(hs0, hs1, hs2, blocks0, blocks1, blocks2, end, lfree, lfree', b, p);
  }

  lemma LowestAfter(hs0: Headers, hs1: Headers, hs2: Headers, blocks0: set<nat>, blocks1: set<nat>, blocks2: set<nat>,
      end: nat,
                    lfree: nat, lfree': nat, b: nat, p: nat)
    requires b < p < end && b in hs0 && p < hs0[b].next && NewFree(hs0, blocks0, hs1, blocks1, b, p)
    requires forall c :: Unused(hs2, blocks2, c) ==> Unused(hs1, blocks1, c)
    requires Unused(hs2, blocks2, p) && lfree' == if lfree == hs0[b].next && hs0[b].next < end then p else lfree
    requires !(b < lfree < hs0[b].next)
    requires BehindUsed(hs0, b) ==> lfree != hs0[b].next || hs0[b].next == end
    requires !BehindUsed(hs0, b) && Lowest(hs0, blocks0, end, lfree) ==> lfree == hs0[b].next < end || lfree < b
    ensures Lowest(hs0, blocks0, end, lfree) ==> (Lowest(hs2, blocks2, end, lfree') <==>
        !(p < lfree && BehindUsed(hs0, b)))
  {
    hide BehindUsed, Unused;
  }

  // The lowest free block is not between a used block and a free one behind it
  lemma BehindFree(hs: Headers, blocks: set<nat>, end: nat, live: map<nat, nat>, used_mem: nat, lfree: nat, b: nat)
    requires Book(hs, blocks, end, live, used_mem) && Hint(hs, blocks, end, lfree) && b in blocks && b < end &&
        b in hs && hs[b].used
    ensures BehindUsed(hs, b) ==> lfree != hs[b].next || hs[b].next == end
    ensures !BehindUsed(hs, b) && Lowest(hs, blocks, end, lfree) ==> lfree == hs[b].next < end || lfree < b
    ensures !(b < lfree < hs[b].next)
  {
    hide Tiled, Linked, Records;
    NextIn(hs, blocks, end, b);
    EndUsed(hs, blocks, end);
    if lfree != end && b < lfree {
      NoneBetween(hs, blocks, end, b, lfree);
    }
    assert !BehindUsed(hs, b) ==> Unused(hs, blocks, hs[b].next);
  }

  lemma AlignTwice(n: nat)
    requires n < WORD
    ensures Align(n) < WORD && Align(Align(n)) == Align(n)
  {
  }
}
