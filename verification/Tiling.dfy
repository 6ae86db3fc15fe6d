/** Memory tiled by block headers, as both rt-thread/src/mem.c and rt-thread/src/memheap.c keep it: headers by
    offset, the set of offsets that are headers now (merging leaves stale headers behind), a used header at the
    end, and the used blocks with their extents. */
module Tiling {
  datatype Header = Header(used: bool, next: nat, prev: nat)

  type Headers = map<nat, Header>

  // The headers tile [0, end); heap_end is a used header of its own
  ghost predicate Tiled(hs: Headers, blocks: set<nat>, end: nat) {
    Framed(hs, blocks, end) && Reaching(hs, blocks, end) && Apart(hs, blocks)
  }

  ghost predicate Framed(hs: Headers, blocks: set<nat>, end: nat) {
    && 0 in blocks && end in blocks
    && (forall b :: b in blocks ==> b in hs && b <= end)
    && hs[end].used
  }

  ghost predicate Reaching(hs: Headers, blocks: set<nat>, end: nat)
    requires Framed(hs, blocks, end)
  {
    forall b :: b in blocks && b < end ==> hs[b].next in blocks && b < hs[b].next
  }

  ghost predicate Apart(hs: Headers, blocks: set<nat>)
    requires forall b :: b in blocks ==> b in hs
  {
    forall b, c :: b in blocks && c in blocks && b < c ==> hs[b].next <= c
  }

  lemma NoneBetween(hs: Headers, blocks: set<nat>, end: nat, b: nat, c: nat)
    requires Tiled(hs, blocks, end) && b in blocks && c in blocks && b < c
    ensures hs[b].next <= c
  {
    hide Reaching;
  }

  lemma NextIn(hs: Headers, blocks: set<nat>, end: nat, b: nat)
    requires Tiled(hs, blocks, end) && b in blocks && b < end
    ensures b in hs && hs[b].next in blocks && hs[b].next in hs && b < hs[b].next <= end
  {
    hide Apart;
  }

  // Different blocks end at different places
  lemma NextsDiffer(hs: Headers, blocks: set<nat>, end: nat, b: nat, c: nat)
    requires Tiled(hs, blocks, end) && b in blocks && c in blocks && b != c && b < end && c < end
    ensures hs[b].next != hs[c].next
  {
    hide Tiled;
    NextIn(hs, blocks, end, b);
    NextIn(hs, blocks, end, c);
    NoneBetween(hs, blocks, end, if b < c then b else c, if b < c then c else b);
  }

  // prev leads to the block in front, but for the first block and the header at the end
  ghost predicate Linked(hs: Headers, blocks: set<nat>, end: nat) {
    forall b :: b in blocks && 0 < b < end ==> Backed(hs, blocks, b)
  }

  ghost predicate Backed(hs: Headers, blocks: set<nat>, b: nat) {
    b in hs && hs[b].prev in blocks && hs[b].prev < b && hs[b].prev in hs && hs[hs[b].prev].next == b
  }

  // A block and the one behind it are not both free
  ghost predicate Fine(hs: Headers, b: nat) {
    b in hs && hs[b].next in hs && (hs[b].used || hs[hs[b].next].used)
  }

  // No two neighbours are free, other than around x
  ghost predicate CoalescedBut(hs: Headers, blocks: set<nat>, end: nat, x: nat) {
    forall b :: b in blocks && b in hs && b < end && b != x && hs[b].next != x ==> Fine(hs, b)
  }

  ghost predicate Coalesced(hs: Headers, blocks: set<nat>, end: nat) {
    forall b :: b in blocks && b < end ==> Fine(hs, b)
  }

  // The used blocks and how far they reach
  ghost predicate Records(hs: Headers, blocks: set<nat>, end: nat, live: map<nat, nat>) {
    && (forall b :: b in blocks && b in hs && b < end ==> (hs[b].used <==> b in live))
    && (forall b :: b in live ==> b in blocks && b in hs && b < end && b + live[b] == hs[b].next)
  }

  ghost predicate Unused(hs: Headers, blocks: set<nat>, b: nat) {
    b in blocks && b in hs && !hs[b].used
  }

  // ---- splitting and merging ----

  // Every current header but b's still says how far its block reaches and whether it is used
  ghost predicate KeepsBut(hs: Headers, hs': Headers, blocks: set<nat>, b: nat) {
    forall c :: c in blocks && c in hs && c != b ==> c in hs' && hs'[c].next == hs[c].next && hs'[c].used == hs[c].used
  }

  lemma KeepsAll(hs: Headers, blocks: set<nat>, b: nat)
    ensures KeepsBut(hs, hs, blocks, b)
  {
  }

  // mem2 at p between b and its next block, whose prev is left alone when it is `skip`
  function Split(hs: Headers, skip: nat, b: nat, p: nat, u: bool): Headers
    requires b in hs && hs[b].next in hs
  {
    var next := hs[b].next;
    var hs1 := hs[p := Header(false, next, b)][b := hs[b].(next := p, used := u)];
    if next == skip then hs1 else hs1[next := hs1[next].(prev := p)]
  }

  lemma SplitEffect(hs: Headers, blocks: set<nat>, skip: nat, b: nat, p: nat, u: bool)
    requires b in hs && hs[b].next in hs && b < p < hs[b].next && p !in blocks
    ensures var hs' := Split(hs, skip, b, p, u);
            && KeepsBut(hs, hs', blocks, b)
            && b in hs' && hs'[b] == hs[b].(next := p, used := u)
            && p in hs' && hs'[p] == Header(false, hs[b].next, b)
            && hs[b].next in hs' && (hs[b].next != skip ==> hs'[hs[b].next].prev == p)
            && (forall c :: c in blocks && c in hs && c != b && c != hs[b].next ==> hs'[c] == hs[c])
  {
  }

  lemma SplitFirst(hs: Headers, skip: nat, b: nat, p: nat, u: bool)
    requires b in hs && hs[b].next in hs && b < p < hs[b].next && 0 in hs
    ensures 0 in Split(hs, skip, b, p, u) && Split(hs, skip, b, p, u)[0].prev == hs[0].prev
  {
  }

  lemma SplitTiles(hs: Headers, blocks: set<nat>, end: nat, skip: nat, b: nat, p: nat, u: bool)
    requires Tiled(hs, blocks, end) && Linked(hs, blocks, end) && skip >= end
    requires b in blocks && b < end && b < p < hs[b].next
    ensures p !in blocks && KeepsBut(hs, Split(hs, skip, b, p, u), blocks, b)
    ensures Tiled(Split(hs, skip, b, p, u), blocks + {p}, end) && Linked(Split(hs, skip, b, p, u), blocks + {p}, end)
  {
    hide Split, Linked, Tiled;
    NextIn(hs, blocks, end, b);
    if p in blocks {
      NoneBetween(hs, blocks, end, b, p);
      assert false;
    }
    SplitEffect(hs, blocks, skip, b, p, u);
    InsertTiles(hs, Split(hs, skip, b, p, u), blocks, end, b, p);
    SplitLinks(hs, blocks, end, skip, b, p, u);
  }

  lemma InsertTiles(hs: Headers, hs': Headers, blocks: set<nat>, end: nat, b: nat, p: nat)
    requires Tiled(hs, blocks, end) && KeepsBut(hs, hs', blocks, b) && p !in blocks
    requires b in blocks && b < end && b < p < hs[b].next
    requires b in hs' && p in hs' && hs'[b].next == p && hs'[p].next == hs[b].next
    ensures Tiled(hs', blocks + {p}, end)
  {
    NextIn(hs, blocks, end, b);
    assert Framed(hs', blocks + {p}, end) by {
      hide Reaching, Apart;
    }
    assert Reaching(hs', blocks + {p}, end) by {
      hide Apart;
    }
    InsertApart(hs, hs', blocks, end, b, p);
  }

  lemma InsertApart(hs: Headers, hs': Headers, blocks: set<nat>, end: nat, b: nat, p: nat)
    requires Tiled(hs, blocks, end) && KeepsBut(hs, hs', blocks, b) && p !in blocks
    requires b in blocks && b < p < hs[b].next
    requires b in hs' && p in hs' && hs'[b].next == p && hs'[p].next == hs[b].next
    requires forall c :: c in blocks + {p} ==> c in hs'
    ensures Apart(hs', blocks + {p})
  {
    hide Reaching;
    assert forall c :: c in blocks && c < p ==> c <= b;
    forall c, d | c in blocks + {p} && d in blocks + {p} && c < d
      ensures hs'[c].next <= d
    {
      if d == p {
        assert c < b ==> hs[c].next <= b;
      } else if c == p {
        assert hs[b].next <= d;
      } else {
        assert hs[c].next <= d;
      }
    }
  }

  lemma SplitLinks(hs: Headers, blocks: set<nat>, end: nat, skip: nat, b: nat, p: nat, u: bool)
    requires Tiled(hs, blocks, end) && Linked(hs, blocks, end) && p !in blocks && skip >= end
    requires b in blocks && b < end && b < p < hs[b].next
    ensures Linked(Split(hs, skip, b, p, u), blocks + {p}, end)
  {
    hide Split, Tiled;
    NextIn(hs, blocks, end, b);
    SplitEffect(hs, blocks, skip, b, p, u);
    var hs' := Split(hs, skip, b, p, u);
    forall c | c in blocks + {p} && 0 < c < end
      ensures Backed(hs', blocks + {p}, c)
    {
      assert c != p ==> Backed(hs, blocks, c);
    }
  }

  // The block behind b absorbed into b
  function Merge(hs: Headers, b: nat): Headers
    requires b in hs && hs[b].next in hs && hs[hs[b].next].next in hs
  {
    var hs1 := hs[b := hs[b].(next := hs[hs[b].next].next)];
    var next := hs1[b].next;
    hs1[next := hs1[next].(prev := b)]
  }

  lemma MergeEffect(hs: Headers, blocks: set<nat>, b: nat)
    requires b in hs && hs[b].next in hs && hs[hs[b].next].next in hs && b < hs[hs[b].next].next
    ensures var hs', m := Merge(hs, b), hs[hs[b].next].next;
            && KeepsBut(hs, hs', blocks, b)
            && b in hs' && hs'[b] == hs[b].(next := m)
            && m in hs' && hs'[m].prev == b
            && (forall c :: c in blocks && c in hs && c != b && c != m ==> hs'[c] == hs[c])
  {
  }

  lemma MergeFirst(hs: Headers, b: nat)
    requires b in hs && hs[b].next in hs && hs[hs[b].next].next in hs && b < hs[hs[b].next].next && 0 in hs
    ensures 0 in Merge(hs, b) && Merge(hs, b)[0].prev == hs[0].prev
  {
  }

  lemma MergeTiles(hs: Headers, blocks: set<nat>, end: nat, b: nat)
    requires Tiled(hs, blocks, end) && Linked(hs, blocks, end)
    requires b in blocks && b < end && hs[b].next < end
    ensures KeepsBut(hs, Merge(hs, b), blocks, b)
    ensures Tiled(Merge(hs, b), blocks - {hs[b].next}, end) && Linked(Merge(hs, b), blocks - {hs[b].next}, end)
  {
    hide Merge, Linked, Tiled;
    NextIn(hs, blocks, end, b);
    NextIn(hs, blocks, end, hs[b].next);
    MergeEffect(hs, blocks, b);
    RemoveTiles(hs, Merge(hs, b), blocks, end, b);
    MergeLinks(hs, blocks, end, b);
  }

  lemma RemoveTiles(hs: Headers, hs': Headers, blocks: set<nat>, end: nat, b: nat)
    requires Tiled(hs, blocks, end) && KeepsBut(hs, hs', blocks, b)
    requires b in blocks && b < end && hs[b].next < end
    requires b in hs' && hs'[b].next == hs[hs[b].next].next
    ensures Tiled(hs', blocks - {hs[b].next}, end)
  {
    hide Reaching, Apart;
    NextIn(hs, blocks, end, b);
    var n := hs[b].next;
    NextIn(hs, blocks, end, n);
    RemoveApart(hs, hs', blocks, end, b, n);
    RemoveReaching(hs, hs', blocks, end, b, n);
  }

  lemma RemoveApart(hs: Headers, hs': Headers, blocks: set<nat>, end: nat, b: nat, n: nat)
    requires Tiled(hs, blocks, end) && KeepsBut(hs, hs', blocks, b) && Framed(hs', blocks - {n}, end)
    requires b in blocks && b < end && n == hs[b].next < end && n in hs && b in hs' && hs'[b].next == hs[n].next
    ensures Apart(hs', blocks - {n})
  {
    hide Reaching, Apart;
    NextIn(hs, blocks, end, b);
    forall c, d | c in blocks - {n} && d in blocks - {n} && c < d
      ensures hs'[c].next <= d
    {
      NoneBetween(hs, blocks, end, c, d);
      if c == b {
        NoneBetween(hs, blocks, end, n, d);
      }
    }
    ApartIs(hs', blocks - {n});
  }

  lemma ApartIs(hs: Headers, blocks: set<nat>)
    requires forall b :: b in blocks ==> b in hs
    requires forall b, c :: b in blocks && c in blocks && b < c ==> hs[b].next <= c
    ensures Apart(hs, blocks)
  {
  }

  lemma RemoveReaching(hs: Headers, hs': Headers, blocks: set<nat>, end: nat, b: nat, n: nat)
    requires Tiled(hs, blocks, end) && KeepsBut(hs, hs', blocks, b) && Framed(hs', blocks - {n}, end)
    requires b in blocks && b < end && n == hs[b].next < end && n in hs && b in hs' && hs'[b].next == hs[n].next
    ensures Reaching(hs', blocks - {n}, end)
  {
    hide Reaching, Apart;
    NextIn(hs, blocks, end, b);
    NextIn(hs, blocks, end, n);
    forall c | c in blocks - {n} && c < end
      ensures hs'[c].next in blocks - {n} && c < hs'[c].next
    {
      NextIn(hs, blocks, end, c);
      if c != b {
        NextsDiffer(hs, blocks, end, b, c);
      }
    }
    ReachingIs(hs', blocks - {n}, end);
  }

  lemma ReachingIs(hs: Headers, blocks: set<nat>, end: nat)
    requires Framed(hs, blocks, end)
    requires forall c :: c in blocks && c < end ==> hs[c].next in blocks && c < hs[c].next
    ensures Reaching(hs, blocks, end)
  {
  }

  lemma MergeLinks(hs: Headers, blocks: set<nat>, end: nat, b: nat)
    requires Tiled(hs, blocks, end) && Linked(hs, blocks, end)
    requires b in blocks && b < end && hs[b].next < end
    ensures Linked(Merge(hs, b), blocks - {hs[b].next}, end)
  {
    hide Merge, Tiled;
    NextIn(hs, blocks, end, b);
    var n := hs[b].next;
    NextIn(hs, blocks, end, n);
    MergeEffect(hs, blocks, b);
    var hs' := Merge(hs, b);
    forall c | c in blocks - {n} && 0 < c < end
      ensures Backed(hs', blocks - {n}, c)
    {
      assert Backed(hs, blocks, c);
    }
  }

  // Free blocks after p was split off b
  lemma SplitRecords(hs: Headers, hs': Headers, blocks: set<nat>, end: nat, live: map<nat, nat>, b: nat, p: nat)
    requires Tiled(hs, blocks, end) && Records(hs, blocks, end, live) && b in blocks && b < p < end
    requires KeepsBut(hs, hs', blocks, b) && Tiled(hs', blocks + {p}, end) && p !in blocks
    requires hs'[b].used && hs'[b].next == p && !hs'[p].used
    ensures Records(hs', blocks + {p}, end, live[b := p - b])
    ensures forall c :: Unused(hs', blocks + {p}, c) <==> c == p || (c != b && Unused(hs, blocks, c))
  {
    hide Reaching, Apart;
  }

  lemma SplitCoalesced(hs: Headers, hs': Headers, blocks: set<nat>, end: nat, b: nat, p: nat)
    requires Tiled(hs, blocks, end) && b in blocks && b < p < end && Coalesced(hs, blocks, end)
    requires KeepsBut(hs, hs', blocks, b) && Tiled(hs', blocks + {p}, end) && p !in blocks
    requires b in hs' && hs'[b].used && hs'[b].next == p && p in hs' && !hs'[p].used && hs'[p].next == hs[b].next
    ensures CoalescedBut(hs', blocks + {p}, end, p)
    ensures !hs[b].used ==> Coalesced(hs', blocks + {p}, end)
  {
    hide Tiled;
    NextIn(hs, blocks, end, b);
    assert Fine(hs, b);
    forall c | c in blocks && c < end && c != b
      ensures Fine(hs', c)
    {
      NextIn(hs, blocks, end, c);
      assert Fine(hs, c);
    }
    assert Fine(hs', b);
    assert !hs[b].used ==> hs[hs[b].next].used;
    EndKept(hs, hs', blocks, end, b);
  }

  lemma EndKept(hs: Headers, hs': Headers, blocks: set<nat>, end: nat, b: nat)
    requires Tiled(hs, blocks, end) && b in blocks && b < end && KeepsBut(hs, hs', blocks, b)
    ensures hs[b].next in hs && hs[b].next in hs' && hs'[hs[b].next].used == hs[hs[b].next].used
  {
    hide Apart;
  }

  // A block becomes used or free as a whole
  lemma FlipTiles(hs: Headers, hs': Headers, blocks: set<nat>, end: nat, b: nat, u: bool)
    requires Tiled(hs, blocks, end) && Linked(hs, blocks, end) && b in blocks && b < end
    requires b in hs && hs' == hs[b := hs[b].(used := u)]
    ensures Tiled(hs', blocks, end) && Linked(hs', blocks, end) && KeepsBut(hs, hs', blocks, b)
  {
    hide Reaching, Apart, Linked, KeepsBut;
    assert end in hs && end in hs';
    hide *;
    FlipLinks(hs, hs', blocks, end);
    SameTiles(hs, hs', blocks, end);
    SameKeeps(hs, hs', blocks, b);
  }

  lemma SameKeeps(hs: Headers, hs': Headers, blocks: set<nat>, b: nat)
    requires forall c :: c in hs && c != b ==> c in hs' && hs'[c] == hs[c]
    ensures KeepsBut(hs, hs', blocks, b)
  {
  }

  lemma SameTiles(hs: Headers, hs': Headers, blocks: set<nat>, end: nat)
    requires Tiled(hs, blocks, end) && end in hs && end in hs' && hs'[end] == hs[end]
    requires forall c :: c in hs ==> c in hs' && hs'[c].next == hs[c].next
    ensures Tiled(hs', blocks, end)
  {
    assert Framed(hs', blocks, end) by {
      hide Reaching, Apart;
    }
    assert Apart(hs', blocks) by {
      hide Reaching;
    }
    hide Apart;
  }

  lemma FlipLinks(hs: Headers, hs': Headers, blocks: set<nat>, end: nat)
    requires Linked(hs, blocks, end)
    requires forall c :: c in hs ==> c in hs' && hs'[c].next == hs[c].next && hs'[c].prev == hs[c].prev
    ensures Linked(hs', blocks, end)
  {
    forall c | c in blocks && 0 < c < end
      ensures Backed(hs', blocks, c)
    {
      assert Backed(hs, blocks, c);
    }
  }

  lemma TakeRecords(hs: Headers, blocks: set<nat>, end: nat, live: map<nat, nat>, b: nat)
    requires Tiled(hs, blocks, end) && Records(hs, blocks, end, live) && b in blocks && b < end && b < hs[b].next
    requires Coalesced(hs, blocks, end) && Tiled(hs[b := hs[b].(used := true)], blocks, end)
    ensures var hs' := hs[b := hs[b].(used := true)];
            && Records(hs', blocks, end, live[b := hs[b].next - b])
            && Coalesced(hs', blocks, end)
            && (forall c :: Unused(hs', blocks, c) <==> c != b && Unused(hs, blocks, c))
  {
    hide Reaching, Apart;
    var hs' := hs[b := hs[b].(used := true)];
    forall c | c in blocks && c < end
      ensures Fine(hs', c)
    {
      assert Fine(hs, c);
    }
  }

  lemma FreeRecords(hs: Headers, blocks: set<nat>, end: nat, live: map<nat, nat>, b: nat)
    requires Tiled(hs, blocks, end) && Records(hs, blocks, end, live) && b in live
    requires Coalesced(hs, blocks, end) && Tiled(hs[b := hs[b].(used := false)], blocks, end)
    ensures var hs' := hs[b := hs[b].(used := false)];
            && Records(hs', blocks, end, live - {b})
            && CoalescedBut(hs', blocks, end, b)
            && (forall c :: Unused(hs', blocks, c) <==> c == b || Unused(hs, blocks, c))
  {
    hide Reaching, Apart;
    var hs' := hs[b := hs[b].(used := false)];
    forall c | c in blocks && c < end && c != b && hs'[c].next != b
      ensures Fine(hs', c)
    {
      assert Fine(hs, c);
    }
  }

  lemma MergeRecords(hs: Headers, hs': Headers, blocks: set<nat>, end: nat, live: map<nat, nat>, b: nat)
    requires Tiled(hs, blocks, end) && Records(hs, blocks, end, live)
    requires b in blocks && b < end && hs[b].next in blocks && hs[b].next < end && !hs[b].used && !hs[hs[b].next].used
    requires KeepsBut(hs, hs', blocks, b) && b in hs' && !hs'[b].used && Tiled(hs', blocks - {hs[b].next}, end)
    ensures Records(hs', blocks - {hs[b].next}, end, live)
    ensures forall c :: Unused(hs', blocks - {hs[b].next}, c) <==> c != hs[b].next && Unused(hs, blocks, c)
  {
    hide Reaching, Apart;
  }

  // b took over the block behind it, and nothing else changed
  ghost predicate Absorbed(hs: Headers, blocks: set<nat>, hs': Headers, blocks': set<nat>, b: nat) {
    && b in hs && hs[b].next in hs && hs[hs[b].next].next in hs && b < hs[b].next
    && blocks' == blocks - {hs[b].next}
    && KeepsBut(hs, hs', blocks, b)
    && b in hs' && hs'[b] == hs[b].(next := hs[hs[b].next].next)
    && (blocks <= hs.Keys ==> blocks' <= hs'.Keys)
    && (blocks <= hs.Keys ==> forall c :: Unused(hs', blocks', c) <==> c != hs[b].next && Unused(hs, blocks, c))
  }

  /** Two free neighbours become one free block; nothing else changes. */
  lemma MergeOk(hs: Headers, blocks: set<nat>, end: nat, live: map<nat, nat>, b: nat)
    requires Tiled(hs, blocks, end) && Linked(hs, blocks, end) && Records(hs, blocks, end, live)
    requires b in blocks && b < end && hs[b].next in blocks && hs[b].next < end && !hs[b].used && !hs[hs[b].next].used
    ensures hs[hs[b].next].next in hs
    ensures var hs', blocks' := Merge(hs, b), blocks - {hs[b].next};
            && Tiled(hs', blocks', end) && Linked(hs', blocks', end) && Records(hs', blocks', end, live)
            && Absorbed(hs, blocks, hs', blocks', b)
  {
    NextIn(hs, blocks, end, b);
    NextIn(hs, blocks, end, hs[b].next);
    MergeTiles(hs, blocks, end, b);
    MergeEffect(hs, blocks, b);
    hide Merge, Reaching, Apart, Linked, Records;
    MergeRecords(hs, Merge(hs, b), blocks, end, live, b);
  }

  // Merging forward leaves at most the pair in front of b
  lemma MergeForward(hs: Headers, hs': Headers, blocks: set<nat>, end: nat, b: nat)
    requires Tiled(hs, blocks, end) && CoalescedBut(hs, blocks, end, b) && KeepsBut(hs, hs', blocks, b)
    requires b in blocks && b < end && hs[b].next in blocks && hs[b].next < end && !hs[b].used && !hs[hs[b].next].used
    requires b in hs' && !hs'[b].used && hs'[b].next == hs[hs[b].next].next
    requires Tiled(hs', blocks - {hs[b].next}, end)
    ensures CoalescedBut(hs', blocks - {hs[b].next}, end, b)
    ensures hs'[b].next in hs' && hs'[hs'[b].next].used
  {
    var n := hs[b].next;
    NextIn(hs, blocks, end, b);
    NextIn(hs, blocks, end, n);
    hide Tiled;
    assert Fine(hs, n);
    forall c | c in blocks - {n} && c in hs' && c < end && c != b && hs'[c].next != b
      ensures Fine(hs', c)
    {
      NextIn(hs, blocks, end, c);
      assert Fine(hs, c);
    }
  }

  lemma MergeBackward(hs: Headers, hs': Headers, blocks: set<nat>, end: nat, q: nat, b: nat)
    requires Tiled(hs, blocks, end) && CoalescedBut(hs, blocks, end, b) && KeepsBut(hs, hs', blocks, q)
    requires q in blocks && q < end && q in hs && hs[q].next == b && b in blocks && b < end && b in hs && !hs[q].used &&
        !hs[b].used
    requires hs[b].next in hs && hs[hs[b].next].used
    requires q in hs' && !hs'[q].used && hs'[q].next == hs[b].next
    requires Tiled(hs', blocks - {b}, end)
    ensures Coalesced(hs', blocks - {b}, end)
  {
    hide Tiled;
    NextIn(hs, blocks, end, q);
    NextIn(hs, blocks, end, b);
    forall c | c in blocks - {b} && c < end
      ensures Fine(hs', c)
    {
      NextIn(hs, blocks, end, c);
      if c != q {
        NextsDiffer(hs, blocks, end, q, c);
        assert Fine(hs, c);
      }
    }
  }

  // The block in front of b is used, if there is one
  ghost predicate FrontUsed(hs: Headers, b: nat) {
    b in hs && (b == 0 || (hs[b].prev in hs && hs[hs[b].prev].used))
  }

  // Merging backward first leaves at most the pair behind the merged block
  lemma MergeBackFirst(hs: Headers, hs': Headers, blocks: set<nat>, end: nat, q: nat, b: nat)
    requires Tiled(hs, blocks, end) && Linked(hs, blocks, end) && CoalescedBut(hs, blocks, end, b) &&
        KeepsBut(hs, hs', blocks, q)
    requires q in blocks && q < end && q in hs && hs[q].next == b && b in blocks && b < end && b in hs && !hs[q].used &&
        !hs[b].used
    requires q in hs' && !hs'[q].used && hs'[q].next == hs[b].next && hs'[q].prev == hs[q].prev
    requires Tiled(hs', blocks - {b}, end)
    ensures CoalescedBut(hs', blocks - {b}, end, q) && FrontUsed(hs', q)
  {
    hide Tiled;
    NextIn(hs, blocks, end, q);
    if q > 0 {
      PrevIn(hs, blocks, end, q);
      assert Fine(hs, hs[q].prev);
    }
    forall c | c in blocks - {b} && c in hs' && c < end && c != q && hs'[c].next != q
      ensures Fine(hs', c)
    {
      NextIn(hs, blocks, end, c);
      NextsDiffer(hs, blocks, end, q, c);
      assert Fine(hs, c);
    }
  }

  // Nothing to merge with
  lemma AloneCoalesced(hs: Headers, blocks: set<nat>, end: nat, b: nat)
    requires Tiled(hs, blocks, end) && Linked(hs, blocks, end) && CoalescedBut(hs, blocks, end, b)
    requires b in blocks && b < end && b in hs && hs[b].next in hs && hs[hs[b].next].used
    requires b == 0 || (hs[b].prev in hs && hs[hs[b].prev].used)
    ensures Coalesced(hs, blocks, end)
  {
    hide Tiled;
    assert b > 0 ==> Backed(hs, blocks, b);
    forall c | c in blocks && c < end
      ensures Fine(hs, c)
    {
      NextIn(hs, blocks, end, c);
      if b != 0 && c != hs[b].prev {
        NextsDiffer(hs, blocks, end, c, hs[b].prev);
      }
    }
  }

  // ---- the heap is determined by its used blocks ----

  ghost predicate Sound(hs: Headers, blocks: set<nat>, end: nat, live: map<nat, nat>) {
    Tiled(hs, blocks, end) && Linked(hs, blocks, end) && Records(hs, blocks, end, live) && Coalesced(hs, blocks, end)
  }

  lemma NextReached(hs: Headers, blocks: set<nat>, hs': Headers, blocks': set<nat>, end: nat, live: map<nat, nat>,
      b: nat)
    requires Sound(hs, blocks, end, live) && Sound(hs', blocks', end, live)
    requires b in blocks && b in blocks' && b < end
    ensures b in hs && b in hs' && hs'[b].next <= hs[b].next
  {
    hide Tiled;
    NextIn(hs, blocks, end, b);
    NextIn(hs', blocks', end, b);
    if b !in live {
      assert Fine(hs, b);
      assert hs[b].next in blocks' by {
        EndIn(hs', blocks', end);
      }
      NoneBetween(hs', blocks', end, b, hs[b].next);
    }
  }

  lemma EndIn(hs: Headers, blocks: set<nat>, end: nat)
    requires Tiled(hs, blocks, end)
    ensures end in blocks
  {
  }

  lemma {:induction false} HeaderReached(hs: Headers, blocks: set<nat>, hs': Headers, blocks': set<nat>, end: nat,
      live: map<nat, nat>, b: nat)
    requires Sound(hs, blocks, end, live) && Sound(hs', blocks', end, live) && b in blocks && b <= end
    ensures b in blocks'
    decreases b
  {
    hide *;
    SoundEnd(hs', blocks', end, live);
    if 0 < b < end {
      var q := SoundPrev(hs, blocks, end, live, b);
      HeaderReached(hs, blocks, hs', blocks', end, live, q);
      NextReached(hs, blocks, hs', blocks', end, live, q);
      NextReached(hs', blocks', hs, blocks, end, live, q);
      SoundNext(hs', blocks', end, live, q);
    }
  }

  lemma SoundEnd(hs: Headers, blocks: set<nat>, end: nat, live: map<nat, nat>)
    requires Sound(hs, blocks, end, live)
    ensures 0 in blocks && end in blocks
  {
  }

  lemma SoundPrev(hs: Headers, blocks: set<nat>, end: nat, live: map<nat, nat>, b: nat) returns (q: nat)
    requires Sound(hs, blocks, end, live) && b in blocks && 0 < b < end
    ensures q in blocks && q in hs && b in hs && q == hs[b].prev && q < b && hs[q].next == b
  {
    hide Tiled, Records, Coalesced;
    assert Backed(hs, blocks, b);
    q := hs[b].prev;
  }

  lemma SoundNext(hs: Headers, blocks: set<nat>, end: nat, live: map<nat, nat>, b: nat)
    requires Sound(hs, blocks, end, live) && b in blocks && b < end
    ensures b in hs && hs[b].next in blocks
  {
    hide Linked, Records, Coalesced, Tiled;
    NextIn(hs, blocks, end, b);
  }

  /** The used blocks determine the whole tiling: any order of frees leads to the same heap. */
  lemma Canonical(hs: Headers, blocks: set<nat>, hs': Headers, blocks': set<nat>, end: nat, live: map<nat, nat>)
    requires Sound(hs, blocks, end, live) && Sound(hs', blocks', end, live)
    requires 0 in hs && 0 in hs' && hs[0].prev == hs'[0].prev
    ensures blocks == blocks'
    ensures forall b :: b in blocks && b < end ==> b in hs && b in hs' && hs[b] == hs'[b]
  {
    hide *;
    SameBlocks(hs, blocks, hs', blocks', end, live);
    SameBlocks(hs', blocks', hs, blocks, end, live);
    assert blocks == blocks';
    forall b | b in blocks && b < end
      ensures b in hs && b in hs' && hs[b] == hs'[b]
    {
      SameHeader(hs, blocks, hs', end, live, b);
    }
  }

  lemma SameBlocks(hs: Headers, blocks: set<nat>, hs': Headers, blocks': set<nat>, end: nat, live: map<nat, nat>)
    requires Sound(hs, blocks, end, live) && Sound(hs', blocks', end, live)
    ensures blocks <= blocks'
  {
    AllBelow(hs, blocks, end);
    hide *;
    forall b | b in blocks
      ensures b in blocks'
    {
      HeaderReached(hs, blocks, hs', blocks', end, live, b);
    }
  }

  lemma SameHeader(hs: Headers, blocks: set<nat>, hs': Headers, end: nat, live: map<nat, nat>, b: nat)
    requires Sound(hs, blocks, end, live) && Sound(hs', blocks, end, live) && b in blocks && b < end
    requires 0 in hs && 0 in hs' && hs[0].prev == hs'[0].prev
    ensures b in hs && b in hs' && hs[b] == hs'[b]
  {
    hide *;
    NextReached(hs, blocks, hs', blocks, end, live, b);
    NextReached(hs', blocks, hs, blocks, end, live, b);
    UsedIsLive(hs, blocks, end, live, b);
    UsedIsLive(hs', blocks, end, live, b);
    if b > 0 {
      PrevSame(hs, blocks, hs', end, live, b);
    }
  }

  lemma UsedIsLive(hs: Headers, blocks: set<nat>, end: nat, live: map<nat, nat>, b: nat)
    requires Sound(hs, blocks, end, live) && b in blocks && b < end && b in hs
    ensures hs[b].used <==> b in live
  {
    hide Tiled, Linked, Coalesced;
  }

  lemma AllBelow(hs: Headers, blocks: set<nat>, end: nat)
    requires Tiled(hs, blocks, end)
    ensures forall b :: b in blocks ==> b <= end
  {
  }

  lemma PrevSame(hs: Headers, blocks: set<nat>, hs': Headers, end: nat, live: map<nat, nat>, b: nat)
    requires Sound(hs, blocks, end, live) && Sound(hs', blocks, end, live) && b in blocks && 0 < b < end
    ensures b in hs && b in hs' && hs[b].prev == hs'[b].prev
  {
    hide Tiled, Records, Coalesced;
    assert Backed(hs, blocks, b) && Backed(hs', blocks, b);
    var q, q' := hs[b].prev, hs'[b].prev;
    if q != q' {
      NextReached(hs, blocks, hs', blocks, end, live, q);
      NextReached(hs', blocks, hs, blocks, end, live, q);
      NextsDiffer(hs', blocks, end, q, q');
    }
  }

  // ---- small facts ----

  lemma BlocksHaveHeaders(hs: Headers, blocks: set<nat>, end: nat)
    requires Tiled(hs, blocks, end)
    ensures blocks <= hs.Keys
  {
  }

  lemma EndUsed(hs: Headers, blocks: set<nat>, end: nat)
    requires Tiled(hs, blocks, end)
    ensures 0 in blocks && end in blocks && end in hs && hs[end].used
  {
  }

  lemma PrevIn(hs: Headers, blocks: set<nat>, end: nat, b: nat)
    requires Tiled(hs, blocks, end) && Linked(hs, blocks, end) && b in blocks && 0 < b < end
    ensures b in hs && hs[b].prev in blocks && hs[b].prev in hs && hs[b].prev < b && hs[hs[b].prev].next == b
  {
    hide Tiled;
    assert Backed(hs, blocks, b);
  }

  // Every block has room for its header
  ghost predicate Roomy(hs: Headers, blocks: set<nat>, end: nat, s: nat) {
    forall b :: b in blocks && b in hs && b < end ==> b + s <= hs[b].next
  }

  lemma RoomyKept(hs: Headers, hs': Headers, blocks: set<nat>, blocks': set<nat>, end: nat, s: nat, b: nat, p: nat)
    requires Roomy(hs, blocks, end, s) && blocks <= hs.Keys && KeepsBut(hs, hs', blocks, b)
    requires forall c :: c in blocks' ==> c in blocks || c == p
    requires b in hs' && b + s <= hs'[b].next && (p in hs' && p in blocks' ==> p + s <= hs'[p].next)
    ensures Roomy(hs', blocks', end, s)
  {
  }

  // The free blocks changed by one that went and one that came
  ghost predicate NewFree(hs: Headers, blocks: set<nat>, hs': Headers, blocks': set<nat>, gone: nat, came: nat) {
    && blocks <= hs.Keys && blocks' <= hs'.Keys
    && forall c :: Unused(hs', blocks', c) <==> c == came || (c != gone && Unused(hs, blocks, c))
  }

  // The free blocks lost one
  ghost predicate NewFreeNone(hs: Headers, blocks: set<nat>, hs': Headers, gone: nat) {
    && blocks <= hs.Keys && blocks <= hs'.Keys
    && forall c :: Unused(hs', blocks, c) <==> c != gone && Unused(hs, blocks, c)
  }

  /** Used blocks lie inside the memory and never overlap. */
  lemma LiveDisjoint(hs: Headers, blocks: set<nat>, end: nat, live: map<nat, nat>, b: nat, c: nat)
    requires Tiled(hs, blocks, end) && Records(hs, blocks, end, live) && b in live && c in live && b != c
    ensures b + live[b] <= end
    ensures b + live[b] <= c || c + live[c] <= b
  {
    hide Tiled;
    NextIn(hs, blocks, end, b);
    NoneBetween(hs, blocks, end, if b < c then b else c, if b < c then c else b);
  }
}
