/** The heap of rt-thread/src/memheap.c as data: a tiling whose free blocks are chained in no particular order. */
module MemHeapRep {
  import opened Sequences
  import opened Chains
  import opened FreeRing
  import opened MapSum
  import opened Tiling

  const ALIGN: nat := 8            // RT_ALIGN_SIZE
  const ITEM: nat := 48            // RT_MEMHEAP_SIZE on a 64-bit target
  const MINI: nat := 12            // RT_MEMHEAP_MINIALLOC
  const WORD: nat := 0x1_0000_0000_0000_0000

  const LIMIT: nat := 0x8000_0000  // the code keeps the size of a block in 32 bits, once signed

  // RT_ALIGN_DOWN
  function Down(size: nat): (r: nat)
    ensures r % ALIGN == 0 && r <= size < r + ALIGN
  {
    size / ALIGN * ALIGN
  }

  // RT_ALIGN, and at least RT_MEMHEAP_MINIALLOC
  function Rounded(size: nat): (r: nat)
    requires size < WORD
    ensures MINI <= r < WORD
  {
    var a := (size + (ALIGN - 1)) % WORD / ALIGN * ALIGN;
    if a < MINI then MINI else a
  }

  lemma RoundedCovers(size: nat)
    requires size < WORD
    ensures size <= WORD - ALIGN ==> size <= Rounded(size) && (Rounded(size) < size + ALIGN || Rounded(size) == MINI)
    ensures Rounded(size) >= size <==> size <= WORD - ALIGN || size <= MINI
  {
  }

  // Requests below RT_MEMHEAP_MINIALLOC once rounded, also by wrapping
  predicate Tiny(size: nat) {
    size <= ALIGN || size > WORD - ALIGN
  }

  /** Exactly these are rounded to 12, which is no multiple of 8. */
  lemma RoundedOff(size: nat)
    requires size < WORD
    ensures Odd(Rounded(size)) <==> Tiny(size)
    ensures Tiny(size) ==> Rounded(size) == MINI
  {
  }

  predicate Odd(size: nat) {
    size % ALIGN != 0
  }

  // Every header stands at a multiple of 8
  ghost predicate OnGrid(blocks: set<nat>) {
    forall b :: b in blocks ==> b % ALIGN == 0
  }

  // Some header once stood elsewhere exactly when some request was cut off at no multiple of 8
  ghost predicate History(blocks: set<nat>, strayed: bool, oddCut: bool) {
    (strayed <==> oddCut) && (!strayed ==> OnGrid(blocks))
  }

  // Used blocks have at least RT_MEMHEAP_MINIALLOC bytes
  ghost predicate Stocked(live: map<nat, nat>) {
    forall b :: b in live ==> live[b] >= ITEM + MINI
  }

  // A header is added at p, `size` bytes into the payload of b
  lemma CutGrid(blocks: set<nat>, blocks': set<nat>, b: nat, p: nat, size: nat, strayed: bool, oddCut: bool)
    requires History(blocks, strayed, oddCut) && b in blocks && p == b + ITEM + size && p in blocks'
    requires forall c :: c in blocks' ==> c in blocks || c == p
    ensures History(blocks', strayed || !OnGrid(blocks'), oddCut || Odd(size))
  {
    if OnGrid(blocks) {
      CutPlace(b, size);
    }
  }

  lemma CutPlace(b: nat, size: nat)
    requires b % ALIGN == 0
    ensures (b + ITEM + size) % ALIGN == 0 <==> size % ALIGN == 0
  {
  }

  lemma StockedMore(live: map<nat, nat>, b: nat, p: nat)
    requires Stocked(live) && b + ITEM + MINI <= p
    ensures Stocked(Extent(live, b, p)) && Stocked(live[b := p - b])
  {
  }

  lemma StockedLess(live: map<nat, nat>, b: nat)
    requires Stocked(live)
    ensures Stocked(live - {b})
  {
  }

  lemma FewerGrid(blocks: set<nat>, blocks': set<nat>, strayed: bool, oddCut: bool)
    requires History(blocks, strayed, oddCut) && blocks' <= blocks
    ensures History(blocks', strayed, oddCut) && strayed == (strayed || !OnGrid(blocks'))
  {
  }

  // The free blocks other than x, and their payloads
  ghost predicate Spares(hs: Headers, blocks: set<nat>, spare: map<nat, nat>, x: nat) {
    && (forall b :: b in spare <==> Unused(hs, blocks, b) && b != x)
    && (forall b :: b in spare && b in hs ==> b + ITEM + spare[b] == hs[b].next)
  }

  // The free list holds exactly those blocks
  ghost predicate Listed(nf: map<nat, nat>, pf: map<nat, nat>, ring: seq<nat>, head: nat, spare: map<nat, nat>) {
    && Ring(nf, pf, ring) && ring[0] == head
    && (forall b :: b in ring[1..] <==> b in spare)
  }

  ghost predicate Tiles(hs: Headers, blocks: set<nat>, end: nat, live: map<nat, nat>) {
    && Tiled(hs, blocks, end) && Linked(hs, blocks, end) && Records(hs, blocks, end, live) &&
        Roomy(hs, blocks, end, ITEM)
    && 0 in hs && hs[0].prev == end
  }

  /** Everything but the list: blocks, used blocks, free blocks and the byte count. */
  ghost predicate Balanced(hs: Headers, blocks: set<nat>, end: nat, live: map<nat, nat>, spare: map<nat, nat>,
      available: nat) {
    Tiles(hs, blocks, end, live) && Spares(hs, blocks, spare, end) && available == Sum(spare) &&
        Coalesced(hs, blocks, end)
  }

  // b is in use up to p
  ghost function Extent(live: map<nat, nat>, b: nat, p: nat): map<nat, nat>
    requires b <= p
  {
    live[b := p - b]
  }

  // The free block at p, of v bytes, in place of the one at b
  ghost function Moved(spare: map<nat, nat>, b: nat, p: nat, v: nat): map<nat, nat> {
    (spare - {b})[p := v]
  }

  lemma SumMoved(spare: map<nat, nat>, b: nat, p: nat, v: nat)
    requires p == b || p !in spare
    ensures Sum(Moved(spare, b, p, v)) == Sum(spare) - (if b in spare then spare[b] else 0) + v
    ensures b !in spare ==> Moved(spare, b, p, v) == spare[p := v]
  {
    if b in spare {
      SumRemove(spare, b);
    } else {
      assert spare - {b} == spare;
    }
    SumAdd(spare - {b}, p, v);
  }

  /** `available` is the total payload of the free blocks; the list header stands behind the memory. */
  ghost predicate Book(hs: Headers, blocks: set<nat>, end: nat, live: map<nat, nat>, spare: map<nat, nat>,
      available: nat,
                       nf: map<nat, nat>, pf: map<nat, nat>, ring: seq<nat>, head: nat) {
    && Tiles(hs, blocks, end, live) && Spares(hs, blocks, spare, end) && available == Sum(spare)
    && Listed(nf, pf, ring, head, spare) && head > end
  }

  lemma Room(hs: Headers, blocks: set<nat>, end: nat, live: map<nat, nat>, b: nat)
    requires Tiles(hs, blocks, end, live) && b in blocks && b < end
    ensures b in hs && b + ITEM <= hs[b].next <= end && hs[b].next in blocks && hs[b].next in hs
    ensures blocks <= hs.Keys && (b in live <==> hs[b].used) && (b in live ==> live[b] == hs[b].next - b)
  {
    NextIn(hs, blocks, end, b);
    BlocksHaveHeaders(hs, blocks, end);
    hide Tiled, Linked;
  }

  // Free blocks lie below the end
  lemma FreeBelow(hs: Headers, blocks: set<nat>, end: nat, live: map<nat, nat>, b: nat)
    requires Tiles(hs, blocks, end, live) && Unused(hs, blocks, b)
    ensures b < end
  {
    EndUsed(hs, blocks, end);
    AllBelow(hs, blocks, end);
    hide Tiled, Linked, Records;
  }

  // ---- tilings ----

  // A new free block at p, behind b; here the tailer's prev changes too
  function Cut(hs: Headers, end: nat, b: nat, p: nat): Headers
    requires b in hs && hs[b].next in hs
  {
    Split(hs, end + 1, b, p, true)
  }

  /** p is split off b, which becomes or stays used. */
  lemma CutOk(hs: Headers, hs': Headers, blocks: set<nat>, end: nat, live: map<nat, nat>, b: nat, p: nat)
    requires Tiles(hs, blocks, end, live) && Coalesced(hs, blocks, end) && b in blocks && b < end && b in hs &&
        hs[b].next in hs
    requires b + ITEM <= p && p + ITEM <= hs[b].next && hs' == Cut(hs, end, b, p)
    ensures p !in blocks && p < end && Tiles(hs', blocks + {p}, end, Extent(live, b, p)) &&
        CoalescedBut(hs', blocks + {p}, end, p)
    ensures !hs[b].used ==> Coalesced(hs', blocks + {p}, end)
    ensures NewFree(hs, blocks, hs', blocks + {p}, b, p) && KeepsBut(hs, hs', blocks, b)
    ensures b in hs' && hs'[b].used && p in hs' && hs'[p] == Header(false, hs[b].next, b)
    ensures hs[b].next in hs' && hs'[hs[b].next].used == hs[hs[b].next].used
  {
    hide Tiled, Linked, Records, Roomy, Split, Coalesced, CoalescedBut, KeepsBut;
    Room(hs, blocks, end, live, b);
    SplitTiles(hs, blocks, end, end + 1, b, p, true);
    SplitEffect(hs, blocks, end + 1, b, p, true);
    SplitFirst(hs, end + 1, b, p, true);
    BlocksHaveHeaders(hs', blocks + {p}, end);
    SplitRecords(hs, hs', blocks, end, live, b, p);
    SplitCoalesced(hs, hs', blocks, end, b, p);
    EndKept(hs, hs', blocks, end, b);
    RoomyKept(hs, hs', blocks, blocks + {p}, end, ITEM, b, p);
  }

  /** A block becomes used, or free, as a whole. */
  lemma FlipOk(hs: Headers, hs': Headers, blocks: set<nat>, end: nat, live: map<nat, nat>, b: nat, u: bool)
    requires Tiles(hs, blocks, end, live) && Coalesced(hs, blocks, end) && b in blocks && b < end && b in hs
    requires hs[b].used != u && hs' == hs[b := hs[b].(used := u)]
    ensures b < hs[b].next && Tiles(hs', blocks, end, if u then live[b := hs[b].next - b] else live - {b})
    ensures u ==> Coalesced(hs', blocks, end) && NewFreeNone(hs, blocks, hs', b)
    ensures !u ==> CoalescedBut(hs', blocks, end, b) && NewFree(hs, blocks, hs', blocks, b, b)
    ensures KeepsBut(hs, hs', blocks, b)
  {
    hide Tiled, Linked, Records, Roomy, Coalesced, CoalescedBut, KeepsBut;
    Room(hs, blocks, end, live, b);
    FlipTiles(hs, hs', blocks, end, b, u);
    BlocksHaveHeaders(hs', blocks, end);
    if u {
      TakeRecords(hs, blocks, end, live, b);
    } else {
      FreeRecords(hs, blocks, end, live, b);
    }
    RoomyKept(hs, hs', blocks, blocks, end, ITEM, b, b);
  }

  /** The free block behind b becomes part of b, free or used. */
  lemma JoinOk(hs: Headers, blocks: set<nat>, end: nat, live: map<nat, nat>, b: nat)
    requires Tiles(hs, blocks, end, live) && b in blocks && b < end && b in hs && hs[b].next in hs
    requires hs[b].next in blocks && hs[b].next < end && !hs[hs[b].next].used
    ensures hs[hs[b].next].next in hs && b < hs[b].next && b + ITEM <= hs[b].next &&
        hs[b].next + ITEM <= hs[hs[b].next].next <= end
    ensures var hs', blocks' := Merge(hs, b), blocks - {hs[b].next};
            && Tiles(hs', blocks', end, if hs[b].used then live[b := hs[hs[b].next].next - b] else live)
            && KeepsBut(hs, hs', blocks, b) && b in hs' && hs'[b] == hs[b].(next := hs[hs[b].next].next)
            && blocks' <= hs'.Keys && (forall c :: Unused(hs', blocks', c) <==>
                c != hs[b].next && Unused(hs, blocks, c))
  {
    hide Tiled, Linked, Records, Roomy, Merge, KeepsBut;
    Room(hs, blocks, end, live, b);
    var n := hs[b].next;
    Room(hs, blocks, end, live, n);
    MergeTiles(hs, blocks, end, b);
    MergeEffect(hs, blocks, b);
    MergeFirst(hs, b);
    BlocksHaveHeaders(Merge(hs, b), blocks - {n}, end);
    RoomyKept(hs, Merge(hs, b), blocks, blocks - {n}, end, ITEM, b, b);
    JoinRecords(hs, Merge(hs, b), blocks, end, live, b, n);
  }

  lemma JoinRecords(hs: Headers, hs': Headers, blocks: set<nat>, end: nat, live: map<nat, nat>, b: nat, n: nat)
    requires Records(hs, blocks, end, live) && b in blocks && b < end && b in hs && n in hs && n in blocks &&
        !hs[n].used && n != b
    requires n < end && n == hs[b].next && KeepsBut(hs, hs', blocks, b) && b in hs' &&
        hs'[b] == hs[b].(next := hs[n].next)
    requires blocks <= hs.Keys && b < hs[n].next
    ensures Records(hs', blocks - {n}, end, if hs[b].used then live[b := hs[n].next - b] else live)
    ensures forall c :: Unused(hs', blocks - {n}, c) <==> c != n && Unused(hs, blocks, c)
  {
  }

  // ---- free blocks ----

  lemma SparesNew(hs: Headers, hs': Headers, blocks: set<nat>, blocks': set<nat>, spare: map<nat, nat>, end: nat,
      b: nat, p: nat, v: nat)
    requires Spares(hs, blocks, spare, end) && NewFree(hs, blocks, hs', blocks', b, p) && KeepsBut(hs, hs', blocks, b)
    requires p in hs' && p + ITEM + v == hs'[p].next && p != end && (p == b || p !in spare)
    ensures Spares(hs', blocks', Moved(spare, b, p, v), end)
  {
  }

  lemma SparesLess(hs: Headers, hs': Headers, blocks: set<nat>, spare: map<nat, nat>, end: nat, b: nat)
    requires Spares(hs, blocks, spare, end) && NewFreeNone(hs, blocks, hs', b) && KeepsBut(hs, hs', blocks, b)
    ensures Spares(hs', blocks, spare - {b}, end)
  {
  }

  // The payloads once b, free, has taken over the free block n and its header
  ghost function Joint(s: map<nat, nat>, b: nat, n: nat): map<nat, nat>
    requires b in s && n in s
  {
    (s - {n})[b := s[b] + ITEM + s[n]]
  }

  // b, free, took over the free block n
  lemma SparesJoin(hs: Headers, hs': Headers, blocks: set<nat>, spare: map<nat, nat>, end: nat, b: nat, n: nat)
    requires Spares(hs, blocks, spare, end) && KeepsBut(hs, hs', blocks, b) && b in spare && n in spare && b != n &&
        b != end
    requires b in hs && n == hs[b].next && n in hs && b in hs' && hs'[b].next == hs[n].next && blocks <= hs.Keys
    requires forall c :: Unused(hs', blocks - {n}, c) <==> c != n && Unused(hs, blocks, c)
    ensures Spares(hs', blocks - {n}, Joint(spare, b, n), end)
  {
    assert spare[b] + ITEM == hs[b].next - b && spare[n] + ITEM == hs[n].next - n;
  }

  lemma SumJoint(spare: map<nat, nat>, b: nat, n: nat)
    requires b in spare && n in spare && b != n
    ensures Sum(Joint(spare, b, n)) == Sum(spare) + ITEM
  {
    SumRemove(spare, n);
    SumUpdate(spare - {n}, b, spare[b] + ITEM + spare[n]);
  }

  // b, used, took over the free block n
  lemma SparesEat(hs: Headers, hs': Headers, blocks: set<nat>, spare: map<nat, nat>, end: nat, b: nat, n: nat)
    requires Spares(hs, blocks, spare, end) && KeepsBut(hs, hs', blocks, b) && b in hs && hs[b].used && b in hs' &&
        hs'[b].used && blocks <= hs.Keys
    requires forall c :: Unused(hs', blocks - {n}, c) <==> c != n && Unused(hs, blocks, c)
    ensures Spares(hs', blocks - {n}, spare - {n}, end)
  {
  }

  // ---- the list of them ----

  lemma ListPush(nf: map<nat, nat>, pf: map<nat, nat>, ring: seq<nat>, head: nat, spare: map<nat, nat>, x: nat, v: nat)
    requires Listed(nf, pf, ring, head, spare) && x !in spare && x != head
    ensures head in nf
    ensures ring != [] && Listed(nf[x := nf[head]][head := x], pf[x := head][nf[head] := x], Pushed(ring, x), head,
        spare[x := v])
  {
    assert ring == [ring[0]] + ring[1..];
    PushOk(nf, pf, ring, x);
    PushDifferent(ring, x);
    hide Ring;
  }

  lemma ListRemove(nf: map<nat, nat>, pf: map<nat, nat>, ring: seq<nat>, head: nat, spare: map<nat, nat>, i: nat)
    requires Listed(nf, pf, ring, head, spare) && 0 < i < |ring|
    ensures ring[i] in nf && ring[i] in pf && ring[i] in spare && ring[i] != head
    ensures var x := ring[i];
            Listed(nf[pf[x] := nf[x]][x := 0], pf[nf[x] := pf[x]][x := 0], Drop(ring, i), head, spare - {x})
  {
    var x := ring[i];
    assert ring[1..][i - 1] == x;
    RemoveOk(nf, pf, ring, i);
    RemoveMembers(ring, i);
    var t := Drop(ring, i);
    assert x !in t by {
      assert x !in t[1..];
      assert t == [t[0]] + t[1..];
    }
    Elsewhere(nf[pf[x] := nf[x]], pf[nf[x] := pf[x]], t, x, 0, 0);
    hide Ring, Drop;
  }

  // Where a free block stands in the list
  lemma ListIndex(nf: map<nat, nat>, pf: map<nat, nat>, ring: seq<nat>, head: nat, spare: map<nat, nat>, x: nat)
      returns (i: nat)
    requires Listed(nf, pf, ring, head, spare) && x in spare
    ensures 0 < i < |ring| && ring[i] == x
  {
    hide Ring;
    var k :| 0 <= k < |ring[1..]| && ring[1..][k] == x;
    i := k + 1;
  }

  lemma ListValue(nf: map<nat, nat>, pf: map<nat, nat>, ring: seq<nat>, head: nat, spare: map<nat, nat>,
      spare': map<nat, nat>)
    requires Listed(nf, pf, ring, head, spare) && spare'.Keys == spare.Keys
    ensures Listed(nf, pf, ring, head, spare')
  {
    hide Ring;
  }

  // ---- the block that rt_memheap_alloc finds ----

  // The first k blocks of the list are too small
  ghost predicate Small(ring: seq<nat>, spare: map<nat, nat>, k: nat, size: nat) {
    forall j :: 0 < j < k && j < |ring| && ring[j] in spare ==> spare[ring[j]] < size
  }

  lemma NoneLarge(nf: map<nat, nat>, pf: map<nat, nat>, ring: seq<nat>, head: nat, spare: map<nat, nat>, size: nat)
    requires Listed(nf, pf, ring, head, spare) && Small(ring, spare, |ring|, size)
    ensures forall b :: b in spare ==> spare[b] < size
  {
    hide Ring;
    forall b | b in spare
      ensures spare[b] < size
    {
      var i := ListIndex(nf, pf, ring, head, spare, b);
    }
  }

  /** A request that some free block would hold is refused for lack of bytes if and only if that block is all the
      free memory there is and would be filled exactly. */
  lemma FittingRefusedIff(spare: map<nat, nat>, b: nat, size: nat)
    requires b in spare && spare[b] >= size
    ensures !(size < Sum(spare)) <==> spare[b] == size && forall c :: c in spare && c != b ==> spare[c] == 0
  {
    SumRemove(spare, b);
    ZeroSum(spare - {b});
    assert forall c :: c in spare && c != b ==> c in spare - {b} && (spare - {b})[c] == spare[c];
  }

  lemma {:induction false} ZeroSum(m: map<nat, nat>)
    ensures Sum(m) == 0 <==> forall k :: k in m ==> m[k] == 0
    decreases |m|
  {
    if m != map[] {
      var k :| k in m;
      SumRemove(m, k);
      ZeroSum(m - {k});
      assert forall j :: j in m && j != k ==> j in m - {k} && (m - {k})[j] == m[j];
    }
  }

  // ---- the operations ----

  lemma SplitAlloc(hs: Headers, hs': Headers, blocks: set<nat>, end: nat, live: map<nat, nat>, spare: map<nat, nat>,
      available: nat, b: nat, p: nat, v: nat)
    requires Balanced(hs, blocks, end, live, spare, available) && b in spare && b in hs && hs[b].next in hs
    requires b + ITEM <= p && p + ITEM + v == hs[b].next && hs' == Cut(hs, end, b, p)
    ensures b !in live && p !in spare && b < p < end && p - b <= available
    ensures Balanced(hs', blocks + {p}, end, Extent(live, b, p), Moved(spare, b, p, v), available - (p - b))
  {
    hide *;
    BalancedIs(hs, blocks, end, live, spare, available);
    SpareUnused(hs, blocks, end, live, spare, b);
    Room(hs, blocks, end, live, b);
    NotSpare(hs, blocks, spare, end, p);
    CutOk(hs, hs', blocks, end, live, b, p);
    SparesNew(hs, hs', blocks, blocks + {p}, spare, end, b, p, v);
    SumMoved(spare, b, p, v);
    BalancedBy(hs', blocks + {p}, end, Extent(live, b, p), Moved(spare, b, p, v), available - (p - b));
  }

  lemma BalancedIs(hs: Headers, blocks: set<nat>, end: nat, live: map<nat, nat>, spare: map<nat, nat>, available: nat)
    requires Balanced(hs, blocks, end, live, spare, available)
    ensures Tiles(hs, blocks, end, live) && Spares(hs, blocks, spare, end) && available == Sum(spare) &&
        Coalesced(hs, blocks, end)
  {
  }

  lemma BalancedBy(hs: Headers, blocks: set<nat>, end: nat, live: map<nat, nat>, spare: map<nat, nat>, available: nat)
    requires Tiles(hs, blocks, end, live) && Spares(hs, blocks, spare, end) && available == Sum(spare) &&
        Coalesced(hs, blocks, end)
    ensures Balanced(hs, blocks, end, live, spare, available)
  {
  }

  lemma SpareUnused(hs: Headers, blocks: set<nat>, end: nat, live: map<nat, nat>, spare: map<nat, nat>, b: nat)
    requires Tiles(hs, blocks, end, live) && Spares(hs, blocks, spare, end) && b in spare
    ensures Unused(hs, blocks, b) && b in blocks && b in hs && !hs[b].used
    ensures b < end && b + ITEM + spare[b] == hs[b].next && spare[b] <= Sum(spare)
  {
    hide Tiles;
    SumRemove(spare, b);
    FreeBelow(hs, blocks, end, live, b);
  }

  lemma NotSpare(hs: Headers, blocks: set<nat>, spare: map<nat, nat>, end: nat, p: nat)
    requires Spares(hs, blocks, spare, end)
    ensures p !in blocks ==> p !in spare
  {
  }

  // The assignments that make a new block
  lemma SplitIs(hs: Headers, hs': Headers, end: nat, b: nat, p: nat)
    requires b in hs && hs[b].next in hs && hs[b].next <= end
    requires var hs1 := hs[p := Header(false, hs[b].next, b)][b := hs[b].(next := p, used := true)];
             hs' == hs1[hs[b].next := hs1[hs[b].next].(prev := p)]
    ensures hs' == Cut(hs, end, b, p)
  {
  }

  lemma SpareNext(hs: Headers, blocks: set<nat>, end: nat, live: map<nat, nat>, spare: map<nat, nat>, b: nat)
    requires Tiles(hs, blocks, end, live) && Spares(hs, blocks, spare, end) && b in spare
    ensures b in hs && hs[b].next in hs && hs[b].next <= end && b < end
  {
    hide *;
    SpareUnused(hs, blocks, end, live, spare, b);
    Room(hs, blocks, end, live, b);
  }

  lemma WholeAlloc(hs: Headers, blocks: set<nat>, end: nat, live: map<nat, nat>, spare: map<nat, nat>, available: nat,
      b: nat)
    requires Tiles(hs, blocks, end, live) && Spares(hs, blocks, spare, end) && available == Sum(spare) &&
        Coalesced(hs, blocks, end)
    requires b in spare && b in hs
    ensures b !in live && b + ITEM + spare[b] == hs[b].next && spare[b] <= available
    ensures var hs' := hs[b := hs[b].(used := true)];
            Tiles(hs', blocks, end, live[b := hs[b].next - b]) && Spares(hs', blocks, spare - {b}, end) &&
                Coalesced(hs', blocks, end)
    ensures available - spare[b] == Sum(spare - {b})
  {
    hide Tiles, Coalesced, CoalescedBut, KeepsBut;
    SpareUnused(hs, blocks, end, live, spare, b);
    Room(hs, blocks, end, live, b);
    FlipOk(hs, hs[b := hs[b].(used := true)], blocks, end, live, b, true);
    SparesLess(hs, hs[b := hs[b].(used := true)], blocks, spare, end, b);
    SumRemove(spare, b);
  }

  lemma JoinFree(hs: Headers, blocks: set<nat>, end: nat, live: map<nat, nat>, s: map<nat, nat>, available: nat, b: nat)
    requires Tiles(hs, blocks, end, live) && Spares(hs, blocks, s, end) && available == Sum(s)
    requires b in s && b in hs && hs[b].next in s && b < end
    ensures hs[b].next in hs && hs[hs[b].next].next in hs && b < hs[b].next
    ensures var n, hs' := hs[b].next, Merge(hs, b);
            && Tiles(hs', blocks - {n}, end, live) && KeepsBut(hs, hs', blocks, b) && b in hs' &&
                hs'[b] == hs[b].(next := hs[n].next)
            && Spares(hs', blocks - {n}, Joint(s, b, n), end)
            && available + ITEM == Sum(Joint(s, b, n))
  {
    hide *;
    var n := hs[b].next;
    SpareUnused(hs, blocks, end, live, s, b);
    SpareUnused(hs, blocks, end, live, s, n);
    Room(hs, blocks, end, live, b);
    JoinOk(hs, blocks, end, live, b);
    SparesJoin(hs, Merge(hs, b), blocks, s, end, b, n);
    SumJoint(s, b, n);
  }

  /** A used block is marked free and counted, but not in the list yet. */
  lemma MarkFree(hs: Headers, hs': Headers, blocks: set<nat>, end: nat, live: map<nat, nat>, spare: map<nat, nat>,
      available: nat, b: nat)
    requires Tiles(hs, blocks, end, live) && Spares(hs, blocks, spare, end) && available == Sum(spare) &&
        Coalesced(hs, blocks, end)
    requires b in live && b in hs && hs' == hs[b := hs[b].(used := false)]
    ensures b in blocks && b < end && hs[b].used && b !in spare && b + ITEM <= hs[b].next && live[b] == hs[b].next - b
    ensures Tiles(hs', blocks, end, live - {b}) && CoalescedBut(hs', blocks, end, b)
    ensures var v: nat := hs[b].next - b - ITEM;
            Spares(hs', blocks, spare[b := v], end) && available + v == Sum(spare[b := v])
  {
    hide *;
    LiveIs(hs, blocks, end, live, b);
    Room(hs, blocks, end, live, b);
    var v: nat := hs[b].next - b - ITEM;
    FlipOk(hs, hs', blocks, end, live, b, false);
    UsedNotSpare(hs, blocks, spare, end, b);
    SparesNew(hs, hs', blocks, blocks, spare, end, b, b, v);
    SumMoved(spare, b, b, v);
  }

  lemma LiveIs(hs: Headers, blocks: set<nat>, end: nat, live: map<nat, nat>, b: nat)
    requires Tiles(hs, blocks, end, live) && b in live
    ensures b in blocks && b < end && b in hs && live[b] == hs[b].next - b && hs[b].used && b + ITEM <= hs[b].next
  {
    hide Tiled, Linked;
  }

  lemma UsedNotSpare(hs: Headers, blocks: set<nat>, spare: map<nat, nat>, end: nat, b: nat)
    requires Spares(hs, blocks, spare, end) && b in hs
    ensures b in spare <==> b in blocks && !hs[b].used && b != end
  {
  }

  // rt_memheap_free looks in front of and behind a block
  lemma Around(hs: Headers, blocks: set<nat>, end: nat, live: map<nat, nat>, b: nat)
    requires Tiles(hs, blocks, end, live) && b in blocks && b < end
    ensures b in hs && hs[b].prev in hs && hs[b].next in hs && hs[b].prev in blocks && hs[b].next in blocks &&
        b < hs[b].next <= end
    ensures b == 0 ==> hs[b].prev == end && hs[end].used
    ensures b > 0 ==> hs[b].prev < b && hs[hs[b].prev].next == b
    ensures end in hs && hs[end].used
  {
    EndUsed(hs, blocks, end);
    NextIn(hs, blocks, end, b);
    if b > 0 {
      PrevIn(hs, blocks, end, b);
    }
    hide Tiled, Linked, Records, Roomy;
  }

  lemma TilesAre(hs: Headers, blocks: set<nat>, end: nat, live: map<nat, nat>)
    requires Tiles(hs, blocks, end, live)
    ensures Tiled(hs, blocks, end) && Linked(hs, blocks, end) && blocks <= hs.Keys
  {
    BlocksHaveHeaders(hs, blocks, end);
  }

  lemma JointKeys(s: map<nat, nat>, b: nat, n: nat)
    requires b in s && n in s && b != n
    ensures Joint(s, b, n).Keys == s.Keys - {n}
  {
  }

  // ---- realloc ----

  // The front used block of a cut has nothing to join on its left
  lemma CutFront(hs: Headers, blocks: set<nat>, end: nat, live: map<nat, nat>, b: nat, p: nat)
    requires Tiles(hs, blocks, end, live) && CoalescedBut(hs, blocks, end, p) && p in blocks && p < end && p in hs &&
        hs[p].prev == b
    requires b in hs && hs[b].used && hs[p].next in hs && hs[hs[p].next].used
    ensures Coalesced(hs, blocks, end)
  {
    TilesAre(hs, blocks, end, live);
    hide Tiles;
    AloneCoalesced(hs, blocks, end, p);
  }

  // The used block b takes over the free block n and gives the bytes from p on back
  lemma GrowOk(hs: Headers, hs1: Headers, blocks: set<nat>, end: nat, live: map<nat, nat>, spare: map<nat, nat>,
      available: nat, b: nat, n: nat, p: nat, v: nat)
    requires Balanced(hs, blocks, end, live, spare, available) && b in live && b in hs && n in spare && n in hs &&
        n == hs[b].next < p
    requires hs[n].next in hs && p + ITEM + v == hs[n].next && hs1 == Merge(hs, b)
    ensures b < n && p < end && p !in spare && p - n <= available
    ensures b in hs1 && hs1[b].next in hs1 && hs1[b].next <= end
    ensures Balanced(Cut(hs1, end, b, p), blocks - {n} + {p}, end, Extent(live, b, p), Moved(spare, n, p, v),
        available - (p - n))
  {
    hide *;
    BalancedIs(hs, blocks, end, live, spare, available);
    LiveIs(hs, blocks, end, live, b);
    SpareUnused(hs, blocks, end, live, spare, n);
    Room(hs, blocks, end, live, b);
    JoinOk(hs, blocks, end, live, b);
    EatenOk(hs, hs1, blocks, blocks - {n}, end, live, spare, b, n);
    var m := hs[n].next;
    CutAgain(hs1, Cut(hs1, end, b, p), blocks - {n}, end, live, Extent(live, b, m), b, p, m);
    var hs2 := Cut(hs1, end, b, p);
    UsedNotSpare(hs1, blocks - {n}, spare - {n}, end, b);
    NotSpare(hs1, blocks - {n}, spare - {n}, end, p);
    SparesNew(hs1, hs2, blocks - {n}, blocks - {n} + {p}, spare - {n}, end, b, p, v);
    MovedTwice(spare, b, n, p, v);
    SumMoved(spare, n, p, v);
    BalancedBy(hs2, blocks - {n} + {p}, end, Extent(live, b, p), Moved(spare, n, p, v), available - (p - n));
  }

  lemma MovedTwice(spare: map<nat, nat>, b: nat, n: nat, p: nat, v: nat)
    requires b !in spare - {n} && p != n && p !in spare - {n}
    ensures Moved(spare - {n}, b, p, v) == Moved(spare, n, p, v) && p !in spare
  {
    assert (spare - {n}) - {b} == spare - {n};
  }

  // A used block took over the free block behind it
  lemma EatCoalesced(hs: Headers, hs': Headers, blocks: set<nat>, end: nat, live: map<nat, nat>, b: nat, n: nat)
    requires Tiles(hs, blocks, end, live) && Coalesced(hs, blocks, end) && KeepsBut(hs, hs', blocks, b)
    requires b in blocks && b < end && b in hs && n == hs[b].next && n in blocks && n < end && n in hs && hs[b].used &&
        !hs[n].used
    requires b in hs' && hs'[b] == hs[b].(next := hs[n].next) && blocks - {n} <= hs'.Keys
    ensures Coalesced(hs', blocks - {n}, end) && hs[n].next in hs' && hs'[hs[n].next].used
  {
    TilesAre(hs, blocks, end, live);
    hide Tiles, Tiled, Linked;
    NextIn(hs, blocks, end, b);
    NextIn(hs, blocks, end, n);
    assert Fine(hs, n);
    forall c | c in blocks - {n} && c < end
      ensures Fine(hs', c)
    {
      NextIn(hs, blocks, end, c);
      if c != b {
        NextsDiffer(hs, blocks, end, b, c);
        assert Fine(hs, c);
      }
    }
  }

  lemma EatenOk(hs: Headers, hs1: Headers, blocks: set<nat>, blocks1: set<nat>, end: nat, live: map<nat, nat>,
      spare: map<nat, nat>, b: nat, n: nat)
    requires Balanced(hs, blocks, end, live, spare, Sum(spare)) && b in live && b in hs && n in spare && n in hs &&
        n == hs[b].next && hs[n].next in hs
    requires hs1 == Merge(hs, b) && blocks1 == blocks - {n}
    ensures b < n <= hs[n].next && n !in blocks1 && b in blocks1 && b in hs1 && hs1[b] == hs[b].(next := hs[n].next) &&
        hs1[b].used && hs1[b].next in hs1 && hs1[hs1[b].next].used
    ensures Tiles(hs1, blocks1, end, Extent(live, b, hs[n].next)) && Coalesced(hs1, blocks1, end) &&
        Spares(hs1, blocks1, spare - {n}, end)
  {
    hide *;
    BalancedIs(hs, blocks, end, live, spare, Sum(spare));
    LiveIs(hs, blocks, end, live, b);
    SpareUnused(hs, blocks, end, live, spare, n);
    Room(hs, blocks, end, live, b);
    JoinOk(hs, blocks, end, live, b);
    ExtentIs(live, b, hs[n].next);
    EatCoalesced(hs, hs1, blocks, end, live, b, n);
    SparesEat(hs, hs1, blocks, spare, end, b, n);
  }

  lemma ExtentIs(live: map<nat, nat>, b: nat, p: nat)
    requires b <= p
    ensures Extent(live, b, p) == live[b := p - b]
  {
  }

  // A used block in front of a used block is cut
  lemma CutAgain(hs: Headers, hs': Headers, blocks: set<nat>, end: nat, live: map<nat, nat>, live1: map<nat, nat>,
      b: nat, p: nat, m: nat)
    requires Tiles(hs, blocks, end, live1) && Coalesced(hs, blocks, end) && b in blocks && b in hs && hs[b].used &&
        hs[b].next == m
    requires m in hs && hs[m].used && b <= m && live1 == Extent(live, b, m) && b < end
    requires b + ITEM <= p && p + ITEM <= m && hs' == Cut(hs, end, b, p)
    ensures m <= end && p !in blocks && p < end && Tiles(hs', blocks + {p}, end, Extent(live, b, p)) &&
        Coalesced(hs', blocks + {p}, end)
    ensures NewFree(hs, blocks, hs', blocks + {p}, b, p) && KeepsBut(hs, hs', blocks, b) && p in hs' && hs'[p].next == m
  {
    hide *;
    Room(hs, blocks, end, live1, b);
    CutOk(hs, hs', blocks, end, live1, b, p);
    ExtentTwice(live, b, m, p);
    CutFront(hs', blocks + {p}, end, Extent(live, b, p), b, p);
  }

  lemma ExtentTwice(live: map<nat, nat>, b: nat, m: nat, p: nat)
    requires b <= p && b <= m
    ensures Extent(Extent(live, b, m), b, p) == Extent(live, b, p)
  {
    assert live[b := m - b][b := p - b] == live[b := p - b];
  }

  /** Realloc rounds, and alloc rounds again: 12 becomes 16. */
  lemma RoundedTwice(n: nat)
    requires n < WORD
    ensures Rounded(n) < WORD && Rounded(Rounded(n)) >= Rounded(n) && !Tiny(Rounded(n))
  {
    RoundedCovers(Rounded(n));
  }

  lemma LiveFacts(hs: Headers, blocks: set<nat>, end: nat, live: map<nat, nat>, spare: map<nat, nat>, b: nat)
    requires Tiles(hs, blocks, end, live) && Spares(hs, blocks, spare, end) && b in live
    ensures b in hs && b + live[b] == hs[b].next && hs[b].next in hs && b + ITEM <= hs[b].next
    ensures hs[b].next in spare <==> !hs[hs[b].next].used
    ensures hs[b].next in spare ==> hs[b].next + ITEM + spare[hs[b].next] == hs[hs[b].next].next
  {
    hide *;
    LiveIs(hs, blocks, end, live, b);
    Around(hs, blocks, end, live, b);
    var n := hs[b].next;
    UsedNotSpare(hs, blocks, spare, end, n);
    if !hs[n].used {
      SpareUnused(hs, blocks, end, live, spare, n);
    }
  }

  lemma TrimOk(hs: Headers, blocks: set<nat>, end: nat, live: map<nat, nat>, spare: map<nat, nat>, available: nat,
      b: nat, p: nat)
    requires Balanced(hs, blocks, end, live, spare, available)
    requires b in live && b in hs && b + ITEM <= p && p + ITEM <= hs[b].next
    ensures p !in spare && p < end && b < p && hs[b].next in hs && hs[b].next <= end
  {
    hide *;
    BalancedIs(hs, blocks, end, live, spare, available);
    LiveIs(hs, blocks, end, live, b);
    Room(hs, blocks, end, live, b);
    CutOk(hs, Cut(hs, end, b, p), blocks, end, live, b, p);
    NotSpare(hs, blocks, spare, end, p);
  }

  // p, cut off the used block b, is in front of a used block
  lemma TrimAlone(hs: Headers, hs1: Headers, blocks: set<nat>, end: nat, live: map<nat, nat>, spare: map<nat, nat>,
      available: nat, b: nat, p: nat, v: nat)
    requires Balanced(hs, blocks, end, live, spare, available)
    requires b in live && b in hs && hs[b].next in hs && b + ITEM <= p && p + ITEM + v == hs[b].next
    requires hs1 == Cut(hs, end, b, p) && hs[hs[b].next].used
    ensures b < p && p in hs1 && hs1[p].next == hs[b].next
    ensures Balanced(hs1, blocks + {p}, end, Extent(live, b, p), spare[p := v], available + v)
  {
    hide *;
    BalancedIs(hs, blocks, end, live, spare, available);
    LiveIs(hs, blocks, end, live, b);
    CutOk(hs, hs1, blocks, end, live, b, p);
    CutFront(hs1, blocks + {p}, end, Extent(live, b, p), b, p);
    CutSpares(hs, hs1, blocks, end, spare, b, p, v);
    BalancedBy(hs1, blocks + {p}, end, Extent(live, b, p), spare[p := v], available + v);
  }

  lemma CutSpares(hs: Headers, hs1: Headers, blocks: set<nat>, end: nat, spare: map<nat, nat>, b: nat, p: nat, v: nat)
    requires Spares(hs, blocks, spare, end) && b in hs && hs[b].used && p !in blocks && p != end
    requires NewFree(hs, blocks, hs1, blocks + {p}, b, p) && KeepsBut(hs, hs1, blocks, b) && p in hs1 &&
        p + ITEM + v == hs1[p].next
    ensures p !in spare && b !in spare
    ensures Spares(hs1, blocks + {p}, spare[p := v], end) && Sum(spare[p := v]) == Sum(spare) + v
  {
    hide *;
    UsedNotSpare(hs, blocks, spare, end, b);
    NotSpare(hs, blocks, spare, end, p);
    SparesNew(hs, hs1, blocks, blocks + {p}, spare, end, b, p, v);
    SumMoved(spare, b, p, v);
  }

  // p, cut off the used block b, takes over the free block n
  lemma TrimJoin(hs: Headers, hs1: Headers, blocks: set<nat>, end: nat, live: map<nat, nat>, spare: map<nat, nat>,
      available: nat, b: nat, p: nat, v: nat, n: nat)
    requires Balanced(hs, blocks, end, live, spare, available)
    requires b in live && b in hs && n in hs && b + ITEM <= p && p + ITEM + v == n
    requires hs1 == Cut(hs, end, b, p) && n == hs[b].next && !hs[n].used
    ensures b < p < n && p in hs1 && hs1[p].next == n && n in spare && n in hs1 && n + ITEM + spare[n] == hs1[n].next &&
        hs1[n].next in hs1
    ensures spare[n] <= available && p !in spare
    ensures p in Merge(hs1, p) && Merge(hs1, p)[p].next == hs1[n].next
    ensures Balanced(Merge(hs1, p), blocks + {p} - {n}, end, Extent(live, b, p),
        Moved(spare, n, p, v + ITEM + spare[n]), available + v + ITEM)
  {
    hide *;
    BalancedIs(hs, blocks, end, live, spare, available);
    LiveIs(hs, blocks, end, live, b);
    Around(hs, blocks, end, live, b);
    UsedNotSpare(hs, blocks, spare, end, n);
    SpareUnused(hs, blocks, end, live, spare, n);
    CutOk(hs, hs1, blocks, end, live, b, p);
    CutSpares(hs, hs1, blocks, end, spare, b, p, v);
    TrimEnd(hs1, blocks + {p}, end, Extent(live, b, p), spare[p := v], spare, available + v, b, p, v, n);
  }

  lemma TrimEnd(hs: Headers, blocks: set<nat>, end: nat, live: map<nat, nat>, s: map<nat, nat>, spare: map<nat, nat>,
      available: nat, b: nat, p: nat, v: nat, n: nat)
    requires Tiles(hs, blocks, end, live) && Spares(hs, blocks, s, end) && available == Sum(s) &&
        CoalescedBut(hs, blocks, end, p)
    requires s == spare[p := v] && n in spare && p !in spare && p in blocks && p < end && p in hs && hs[p].next == n &&
        hs[p].prev == b
    requires b in blocks && b in hs && hs[b].used
    ensures n in hs && hs[n].next in hs && n + ITEM + spare[n] == hs[n].next
    ensures p in Merge(hs, p) && Merge(hs, p)[p].next == hs[n].next
    ensures Balanced(Merge(hs, p), blocks - {n}, end, live, Moved(spare, n, p, v + ITEM + spare[n]), available + ITEM)
  {
    hide *;
    SpareUnused(hs, blocks, end, live, s, n);
    SpareUnused(hs, blocks, end, live, s, p);
    JoinFree(hs, blocks, end, live, s, available, p);
    JointIs(spare, p, v, n);
    TrimCoalesced(hs, blocks, end, live, b, p, n);
    BalancedBy(Merge(hs, p), blocks - {n}, end, live, Joint(s, p, n), available + ITEM);
  }

  lemma JointIs(spare: map<nat, nat>, p: nat, v: nat, n: nat)
    requires n in spare && p !in spare
    ensures Joint(spare[p := v], p, n) == Moved(spare, n, p, v + ITEM + spare[n])
  {
    assert (spare[p := v] - {n})[p := v + ITEM + spare[n]] == (spare - {n})[p := v + ITEM + spare[n]];
  }

  lemma TrimCoalesced(hs: Headers, blocks: set<nat>, end: nat, live: map<nat, nat>, b: nat, p: nat, n: nat)
    requires Tiles(hs, blocks, end, live) && CoalescedBut(hs, blocks, end, p) && p in blocks && p < end && p in hs &&
        !hs[p].used
    requires hs[p].prev == b && b in blocks && b in hs && hs[b].used && hs[p].next == n && n in hs && !hs[n].used &&
        n < end && hs[n].next in hs
    requires Tiles(Merge(hs, p), blocks - {n}, end, live)
    ensures Coalesced(Merge(hs, p), blocks - {n}, end)
  {
    hide *;
    TilesAre(hs, blocks, end, live);
    TilesAre(Merge(hs, p), blocks - {n}, end, live);
    NextIn(hs, blocks, end, p);
    NextIn(hs, blocks, end, n);
    MergeEffect(hs, blocks, p);
    MergeForward(hs, Merge(hs, p), blocks, end, p);
    UsedKept(hs, Merge(hs, p), blocks, b, p);
    AloneCoalesced(Merge(hs, p), blocks - {n}, end, p);
  }

  lemma UsedKept(hs: Headers, hs': Headers, blocks: set<nat>, b: nat, p: nat)
    requires KeepsBut(hs, hs', blocks, p) && b in blocks && b in hs && hs[b].used && b != p
    ensures b in hs' && hs'[b].used
  {
  }

  /** Freeing everything, in any order, gives back the block rt_memheap_init made and all its bytes. */
  lemma EmptyHeap(hs: Headers, blocks: set<nat>, end: nat, spare: map<nat, nat>, available: nat)
    requires Balanced(hs, blocks, end, map[], spare, available) && end >= ITEM
    ensures blocks == {0, end} && 0 in hs && hs[0] == Header(false, end, end)
    ensures available == end - ITEM && spare == map[0 := available]
  {
    var hs0 := map[0 := Header(false, end, end), end := Header(true, 0, 0)];
    assert Fine(hs0, 0);
    assert Tiled(hs0, {0, end}, end);
    Canonical(hs, blocks, hs0, {0, end}, end, map[]);
    EmptySpare(hs, end, spare);
  }

  lemma EmptySpare(hs: Headers, end: nat, spare: map<nat, nat>)
    requires Spares(hs, {0, end}, spare, end) && 0 in hs && hs[0] == Header(false, end, end) && end > 0
    ensures end >= ITEM && spare == map[0 := end - ITEM] && Sum(spare) == end - ITEM
  {
    assert Unused(hs, {0, end}, 0);
    SumRemove(spare, 0);
    assert spare - {0} == map[];
  }
}
