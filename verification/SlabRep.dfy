/** The bookkeeping of rt-thread/src/slab.c: zones, class lists, page map and the blocks that are
    in use, and how each internal step changes them. Addresses are relative to heap_start. */
module SlabRep {
  import opened Sequences
  import opened PageList
  import opened Wrappers
  import opened SlabSizes

  datatype PageKind = FreePage | SmallPage | LargePage

  // struct memusage
  datatype Usage = Usage(kind: PageKind, size: nat)

  // struct slab_zone; `magic` says whether z_magic is ZALLOC_SLAB_MAGIC
  datatype Zone = Zone(magic: bool, nfree: nat, nmax: nat, base: nat, uindex: nat,
                       chunkSize: nat, zi: nat, freeChunks: seq<nat>)

  // What a page is used for
  datatype Owner = Nobody | Reserved | InZone(zone: nat) | InLarge(first: nat)

  // ---- one zone ----

  predicate IsChunk(z: nat, size: nat, last: nat, a: nat)
    requires size > 0
  {
    exists k: nat :: k <= last && a == ChunkAddr(z, size, k)
  }

  // The free chunks and the chunks in use are chunks that were handed out at least once
  predicate ChunksOk(z: nat, size: nat, uindex: nat, freeChunks: seq<nat>, used: set<nat>) {
    && size > 0
    && Distinct(freeChunks)
    && (forall a :: a in freeChunks ==> IsChunk(z, size, uindex, a) && a !in used)
    && (forall a :: a in used ==> IsChunk(z, size, uindex, a))
  }

  predicate Counts(n: Zone, used: set<nat>) {
    && n.uindex < n.nmax && n.nmax >= 3
    && |used| + |n.freeChunks| == n.uindex + 1
    && n.nfree == (n.nmax - 1 - n.uindex) + |n.freeChunks|
  }

  predicate Geometry(z: nat, n: Zone, zp: nat) {
    && n.zi < NZONES
    && n.chunkSize == ChunkSize(n.zi) > 0
    && n.nmax == NMax(zp * PAGE, n.chunkSize)
    && n.base == ChunkAddr(z, n.chunkSize, 0)
  }

  predicate ZoneOk(z: nat, n: Zone, used: set<nat>, zp: nat) {
    if n.magic then
      && Geometry(z, n, zp)
      && Counts(n, used)
      && ChunksOk(z, n.chunkSize, n.uindex, n.freeChunks, used)
    else used == {}
  }

  /** A zone is totally free exactly when none of its chunks is in use, and full exactly when all
      of them are. */
  lemma FreeCount(z: nat, n: Zone, used: set<nat>, zp: nat)
    requires n.magic && ZoneOk(z, n, used, zp)
    ensures n.nfree == n.nmax - |used|
    ensures n.nfree == n.nmax <==> used == {}
  {
  }

  lemma ChunkInjective(z: nat, size: nat, i: nat, j: nat)
    requires size > 0 && ChunkAddr(z, size, i) == ChunkAddr(z, size, j)
    ensures i == j
  {
    if i < j {
      ChunksDisjoint(size, i, j);
    } else if j < i {
      ChunksDisjoint(size, j, i);
    }
  }

  lemma ChunkGrows(z: nat, size: nat, last: nat, a: nat)
    requires size > 0 && IsChunk(z, size, last, a)
    ensures IsChunk(z, size, last + 1, a) && a != ChunkAddr(z, size, last + 1)
  {
    var k: nat :| k <= last && a == ChunkAddr(z, size, k);
    if a == ChunkAddr(z, size, last + 1) {
      ChunkInjective(z, size, k, last + 1);
    }
  }

  // rt_malloc on a zone with free chunks: untouched space first, then the free-chunk list
  function TakeChunk(n: Zone): (nat, Zone)
    requires n.nfree > 0 && (n.uindex + 1 == n.nmax ==> n.freeChunks != [])
  {
    var n1 := n.(nfree := n.nfree - 1);
    if n.uindex + 1 != n.nmax then
      (n.base + (n.uindex + 1) * n.chunkSize, n1.(uindex := n.uindex + 1))
    else (n.freeChunks[0], n1.(freeChunks := n.freeChunks[1..]))
  }

  // rt_free into its zone
  function GiveChunk(n: Zone, a: nat): Zone {
    n.(nfree := n.nfree + 1, freeChunks := [a] + n.freeChunks)
  }

  // The header written for a zone that starts to serve class zi; its first chunk is handed out
  function FreshZone(z: nat, zi: nat, zp: nat): Zone
    requires ChunkSize(zi) > 0
  {
    var size := ChunkSize(zi);
    var nmax := NMax(zp * PAGE, size);
    Zone(true, if nmax > 0 then nmax - 1 else 0, nmax, z * PAGE + Offset(size), 0, size, zi, [])
  }

  lemma TakeChunkOk(z: nat, n: Zone, used: set<nat>, zp: nat)
    requires n.magic && ZoneOk(z, n, used, zp) && n.nfree > 0
    ensures n.uindex + 1 == n.nmax ==> n.freeChunks != []
    ensures var n' := TakeChunk(n).1;
            n'.chunkSize == n.chunkSize && n'.zi == n.zi && n'.nfree < n'.nmax
    ensures var (a, n') := TakeChunk(n);
            && a !in used && IsChunk(z, n.chunkSize, n.nmax - 1, a)
            && n'.magic && ZoneOk(z, n', used + {a}, zp)
  {
    var (a, n') := TakeChunk(n);
    if n.uindex + 1 != n.nmax {
      assert a == ChunkAddr(z, n.chunkSize, n.uindex + 1);
      forall c | c in n.freeChunks || c in used
        ensures IsChunk(z, n.chunkSize, n.uindex + 1, c) && c != a
      {
        ChunkGrows(z, n.chunkSize, n.uindex, c);
      }
      assert IsChunk(z, n.chunkSize, n.uindex + 1, a);
      WidenChunk(z, n.chunkSize, n.uindex + 1, n.nmax - 1, a);
    } else {
      assert a in n.freeChunks;
    }
  }

  lemma WidenChunk(z: nat, size: nat, i: nat, j: nat, a: nat)
    requires size > 0 && i <= j && IsChunk(z, size, i, a)
    ensures IsChunk(z, size, j, a)
  {
  }

  lemma GiveChunkOk(z: nat, n: Zone, used: set<nat>, zp: nat, a: nat)
    requires n.magic && ZoneOk(z, n, used, zp) && a in used
    ensures ZoneOk(z, GiveChunk(n, a), used - {a}, zp)
  {
    var n' := GiveChunk(n, a);
    assert forall c :: c in n'.freeChunks ==> c == a || c in n.freeChunks;
  }

  lemma FreshZoneOk(z: nat, zi: nat, zp: nat)
    requires zi < NZONES && ChunkSize(zi) > 0 && NMax(zp * PAGE, ChunkSize(zi)) >= 3
    ensures var n := FreshZone(z, zi, zp);
            ZoneOk(z, n, {n.base}, zp) && IsChunk(z, n.chunkSize, n.nmax - 1, n.base)
  {
    var n := FreshZone(z, zi, zp);
    assert n.base == ChunkAddr(z, n.chunkSize, 0);
  }

  lemma ChunkPlace(z: nat, n: Zone, used: set<nat>, zp: nat, a: nat)
    requires n.magic && Geometry(z, n, zp) && n.nmax > 0 && IsChunk(z, n.chunkSize, n.nmax - 1, a)
    ensures z * PAGE <= a && a + n.chunkSize <= (z + zp) * PAGE
    ensures z <= a / PAGE < z + zp && 0 < a
  {
    var k: nat :| k <= n.nmax - 1 && a == ChunkAddr(z, n.chunkSize, k);
    ChunkInZone(zp * PAGE, n.chunkSize, k);
    ChunkSizeAligned(n.zi);
    OffsetBound(n.chunkSize);
  }

  // ---- who owns which page ----

  ghost predicate PagesOk(l: seq<Run>, owner: seq<Owner>) {
    Canonical(l) && forall p: int :: Has(l, p) <==> 0 <= p < |owner| && owner[p] == Nobody
  }

  predicate Owns(owner: seq<Owner>, a: nat, n: nat, o: Owner) {
    a + n <= |owner| && forall p :: a <= p < a + n ==> owner[p] == o
  }

  function Claim(owner: seq<Owner>, a: nat, n: nat, o: Owner): (r: seq<Owner>)
    requires a + n <= |owner|
    ensures |r| == |owner|
    ensures forall p :: 0 <= p < |owner| ==> r[p] == if a <= p < a + n then o else owner[p]
  {
    seq(|owner|, p requires 0 <= p < |owner| => if a <= p < a + n then o else owner[p])
  }

  predicate Holder(o: Owner) {
    o.InZone? || o.InLarge?
  }

  // The first page of a zone or of a large block
  function First(o: Owner): nat
    requires Holder(o)
  {
    if o.InZone? then o.zone else o.first
  }

  // `held` lists the zones and large blocks with their page counts; `owner` is its inverse
  predicate OwnersOk(owner: seq<Owner>, held: map<Owner, nat>) {
    && (forall o :: o in held ==> Holder(o) && held[o] > 0 && Owns(owner, First(o), held[o], o))
    && (forall p :: 0 <= p < |owner| && Holder(owner[p]) ==>
         owner[p] in held && First(owner[p]) <= p < First(owner[p]) + held[owner[p]])
  }

  lemma OwnsElsewhere(owner: seq<Owner>, a: nat, n: nat, y: Owner, o: Owner, b: nat, m: nat, x: Owner)
    requires Owns(owner, a, n, y) && Owns(owner, b, m, x) && x != y
    ensures Owns(Claim(owner, a, n, o), b, m, x)
  {
    forall p | b <= p < b + m ensures Claim(owner, a, n, o)[p] == x {
      assert owner[p] == x;
    }
  }

  lemma ClaimOk(owner: seq<Owner>, held: map<Owner, nat>, o: Owner, n: nat)
    requires OwnersOk(owner, held) && Holder(o) && n > 0 && Owns(owner, First(o), n, Nobody)
    ensures o !in held && OwnersOk(Claim(owner, First(o), n, o), held[o := n])
  {
    assert owner[First(o)] == Nobody;
    forall x | x in held ensures x != o && Owns(Claim(owner, First(o), n, o), First(x), held[x], x) {
      assert Owns(owner, First(x), held[x], x);
      OwnsElsewhere(owner, First(o), n, Nobody, o, First(x), held[x], x);
    }
  }

  lemma ReleaseOk(owner: seq<Owner>, held: map<Owner, nat>, o: Owner)
    requires OwnersOk(owner, held) && o in held
    ensures Owns(owner, First(o), held[o], o) && held[o] > 0 && owner[First(o)] == o
    ensures OwnersOk(Claim(owner, First(o), held[o], Nobody), held - {o})
  {
    forall x | x in held && x != o
      ensures Owns(Claim(owner, First(o), held[o], Nobody), First(x), held[x], x)
    {
      OwnsElsewhere(owner, First(o), held[o], o, Nobody, First(x), held[x], x);
    }
  }

  lemma OwnedApart(owner: seq<Owner>, held: map<Owner, nat>, o: Owner, o': Owner)
    requires OwnersOk(owner, held) && o in held && o' in held && o != o'
    ensures First(o) + held[o] <= First(o') || First(o') + held[o'] <= First(o)
  {
    assert owner[First(o)] == o && owner[First(o')] == o';
  }

  // ---- the page map ----

  predicate UsageOk(mem: seq<Usage>, owner: seq<Owner>, held: map<Owner, nat>) {
    && |mem| == |owner|
    && (forall p :: 0 <= p < |owner| && owner[p].InZone? && owner[p].zone <= p ==>
         mem[p] == Usage(SmallPage, p - owner[p].zone))
    && (forall o :: o in held && o.InLarge? && o.first < |mem| ==>
         mem[o.first] == Usage(LargePage, held[o]))
  }

  // ---- zones ----

  ghost predicate ZonesOk(zones: map<nat, Zone>, used: map<nat, set<nat>>, held: map<Owner, nat>, zp: nat) {
    && used.Keys == zones.Keys
    && (forall z :: z in zones <==> InZone(z) in held)
    && (forall z :: z in zones ==> held[InZone(z)] == zp && ZoneOk(z, zones[z], used[z], zp))
  }

  lemma ZonePlace(z: nat, n: Zone, used: set<nat>, zp: nat, a: nat)
    requires n.magic && ZoneOk(z, n, used, zp) && a in used
    ensures z * PAGE <= a && a + n.chunkSize <= (z + zp) * PAGE && z <= a / PAGE < z + zp
  {
    WidenChunk(z, n.chunkSize, n.uindex, n.nmax - 1, a);
    ChunkPlace(z, n, used, zp, a);
  }

  // ---- blocks in use ----

  // The owner of the page under address p accounts for a live block of that size at p
  predicate LiveAt(p: nat, size: nat, owner: seq<Owner>, zones: map<nat, Zone>,
                   used: map<nat, set<nat>>, held: map<Owner, nat>) {
    p / PAGE < |owner| &&
    var o := owner[p / PAGE];
    match o
    case InZone(z) => z in zones && z in used && p in used[z] && zones[z].magic && size == zones[z].chunkSize
    case InLarge(b) => o in held && p == b * PAGE && size == held[o] * PAGE
    case _ => false
  }

  predicate AllLive(live: map<nat, nat>, owner: seq<Owner>, zones: map<nat, Zone>,
                    used: map<nat, set<nat>>, held: map<Owner, nat>) {
    forall p :: p in live ==> LiveAt(p, live[p], owner, zones, used, held)
  }

  predicate UsedLive(live: map<nat, nat>, owner: seq<Owner>, used: map<nat, set<nat>>) {
    forall z :: z in used ==> ZoneLive(live, owner, z, used[z])
  }

  // The chunks in use of zone z are live blocks on its pages
  predicate ZoneLive(live: map<nat, nat>, owner: seq<Owner>, z: nat, chunks: set<nat>) {
    forall p :: p in chunks ==> p in live && p / PAGE < |owner| && owner[p / PAGE] == InZone(z)
  }

  predicate LargeLive(live: map<nat, nat>, held: map<Owner, nat>) {
    forall o :: o in held && o.InLarge? ==> o.first * PAGE in live
  }

  // Everything but the lists
  ghost predicate Book(owner: seq<Owner>, held: map<Owner, nat>, zones: map<nat, Zone>,
                 used: map<nat, set<nat>>, live: map<nat, nat>, zp: nat) {
    && zp > 0
    && OwnersOk(owner, held)
    && ZonesOk(zones, used, held, zp)
    && AllLive(live, owner, zones, used, held)
    && UsedLive(live, owner, used)
    && LargeLive(live, held)
  }

  lemma PageOf(b: nat)
    ensures (b * PAGE) / PAGE == b
  {
  }

  lemma LargeLiveFrame(live: map<nat, nat>, held: map<Owner, nat>, live': map<nat, nat>, held': map<Owner, nat>)
    requires LargeLive(live, held)
    requires forall o :: o in held' && o.InLarge? ==> o in held && (o.first * PAGE in live ==> o.first * PAGE in live')
    ensures LargeLive(live', held')
  {
  }

  lemma ZonesUpdate(zones: map<nat, Zone>, used: map<nat, set<nat>>, held: map<Owner, nat>, zp: nat,
                    z: nat, n': Zone, u': set<nat>)
    requires ZonesOk(zones, used, held, zp) && z in zones && ZoneOk(z, n', u', zp)
    ensures ZonesOk(zones[z := n'], used[z := u'], held, zp)
  {
    hide ZoneOk;
  }

  /** Handing out a chunk, from a zone that serves a class or one that starts to. */
  lemma AddChunk(owner: seq<Owner>, held: map<Owner, nat>, zones: map<nat, Zone>,
                 used: map<nat, set<nat>>, live: map<nat, nat>, zp: nat, z: nat, n': Zone, a: nat)
    requires Book(owner, held, zones, used, live, zp) && z in zones && a !in used[z]
    requires n'.magic && ZoneOk(z, n', used[z] + {a}, zp)
    requires zones[z].magic ==> n'.chunkSize == zones[z].chunkSize
    ensures a !in live
    ensures Book(owner, held, zones[z := n'], used[z := used[z] + {a}], live[a := n'.chunkSize], zp)
  {
    hide ZoneOk, LargeLive;
    ZonePlace(z, n', used[z] + {a}, zp, a);
    assert Owns(owner, z, zp, InZone(z)) by { assert InZone(z) in held; }
    assert a in live ==> LiveAt(a, live[a], owner, zones, used, held);
    hide OwnersOk, AllLive, UsedLive;
    AddChunkLive(owner, held, zones, used, live, z, n', a);
    ZonesUpdate(zones, used, held, zp, z, n', used[z] + {a});
    LargeLiveFrame(live, held, live[a := n'.chunkSize], held);
  }

  lemma AddChunkLive(owner: seq<Owner>, held: map<Owner, nat>, zones: map<nat, Zone>,
                     used: map<nat, set<nat>>, live: map<nat, nat>, z: nat, n': Zone, a: nat)
    requires AllLive(live, owner, zones, used, held) && UsedLive(live, owner, used)
    requires z in zones && z in used && a !in live
    requires a / PAGE < |owner| && owner[a / PAGE] == InZone(z) && n'.magic
    requires zones[z].magic ==> n'.chunkSize == zones[z].chunkSize
    ensures AllLive(live[a := n'.chunkSize], owner, zones[z := n'], used[z := used[z] + {a}], held)
    ensures UsedLive(live[a := n'.chunkSize], owner, used[z := used[z] + {a}])
  {
    var zones', used', live' := zones[z := n'], used[z := used[z] + {a}], live[a := n'.chunkSize];
    forall p | p in live' ensures LiveAt(p, live'[p], owner, zones', used', held) {
      if p != a {
        assert LiveAt(p, live[p], owner, zones, used, held);
      }
    }
    forall y | y in used' ensures ZoneLive(live', owner, y, used'[y]) {
      assert ZoneLive(live, owner, y, used[y]);
    }
  }

  lemma DropChunk(owner: seq<Owner>, held: map<Owner, nat>, zones: map<nat, Zone>,
                  used: map<nat, set<nat>>, live: map<nat, nat>, zp: nat, z: nat, n': Zone, a: nat)
    requires Book(owner, held, zones, used, live, zp) && z in zones && zones[z].magic && a in used[z]
    requires n'.magic && n'.chunkSize == zones[z].chunkSize && ZoneOk(z, n', used[z] - {a}, zp)
    ensures a in live
    ensures Book(owner, held, zones[z := n'], used[z := used[z] - {a}], live - {a}, zp)
  {
    hide ZoneOk, LiveAt;
    assert ZoneLive(live, owner, z, used[z]);
    DropChunkLarge(owner, held, live, a);
    hide OwnersOk, UsedLive, LargeLive, AllLive;
    DropChunkLive(owner, held, zones, used, live, z, n', a);
    ZonesUpdate(zones, used, held, zp, z, n', used[z] - {a});
  }

  lemma DropChunkLarge(owner: seq<Owner>, held: map<Owner, nat>, live: map<nat, nat>, a: nat)
    requires OwnersOk(owner, held) && LargeLive(live, held)
    requires a / PAGE < |owner| && owner[a / PAGE].InZone?
    ensures LargeLive(live - {a}, held)
  {
    forall o | o in held && o.InLarge? ensures o.first * PAGE in live - {a} {
      PageOf(o.first);
      assert Owns(owner, First(o), held[o], o);
    }
  }

  lemma DropChunkLive(owner: seq<Owner>, held: map<Owner, nat>, zones: map<nat, Zone>,
                      used: map<nat, set<nat>>, live: map<nat, nat>, z: nat, n': Zone, a: nat)
    requires AllLive(live, owner, zones, used, held) && UsedLive(live, owner, used)
    requires z in zones && z in used && zones[z].magic && n'.magic && n'.chunkSize == zones[z].chunkSize
    requires a / PAGE < |owner| && owner[a / PAGE] == InZone(z)
    ensures AllLive(live - {a}, owner, zones[z := n'], used[z := used[z] - {a}], held)
    ensures UsedLive(live - {a}, owner, used[z := used[z] - {a}])
  {
    var zones', used', live' := zones[z := n'], used[z := used[z] - {a}], live - {a};
    forall p | p in live' ensures LiveAt(p, live'[p], owner, zones', used', held) {
      assert LiveAt(p, live[p], owner, zones, used, held);
    }
    forall y | y in used' ensures ZoneLive(live', owner, y, used'[y]) {
      assert ZoneLive(live, owner, y, used[y]);
    }
  }

  /** A zone with no chunk in use changes its header: it is retired. */
  lemma Retire(owner: seq<Owner>, held: map<Owner, nat>, zones: map<nat, Zone>,
               used: map<nat, set<nat>>, live: map<nat, nat>, zp: nat, z: nat)
    requires Book(owner, held, zones, used, live, zp) && z in zones && used[z] == {}
    ensures Book(owner, held, zones[z := zones[z].(magic := false)], used, live, zp)
  {
    hide OwnersOk, UsedLive, LargeLive;
    var zones' := zones[z := zones[z].(magic := false)];
    forall p | p in live ensures LiveAt(p, live[p], owner, zones', used, held) {
      assert LiveAt(p, live[p], owner, zones, used, held);
    }
  }

  // Claiming free pages does not disturb the live blocks
  lemma ClaimLive(owner: seq<Owner>, held: map<Owner, nat>, zones: map<nat, Zone>,
                  used: map<nat, set<nat>>, live: map<nat, nat>, o: Owner, n: nat)
    requires Holder(o) && o !in held && Owns(owner, First(o), n, Nobody)
    requires AllLive(live, owner, zones, used, held) && UsedLive(live, owner, used)
    ensures AllLive(live, Claim(owner, First(o), n, o), zones, used, held[o := n])
    ensures UsedLive(live, Claim(owner, First(o), n, o), used)
  {
    var owner', held' := Claim(owner, First(o), n, o), held[o := n];
    forall p | p in live ensures LiveAt(p, live[p], owner', zones, used, held') {
      assert LiveAt(p, live[p], owner, zones, used, held);
    }
    forall z | z in used ensures ZoneLive(live, owner', z, used[z]) {
      assert ZoneLive(live, owner, z, used[z]);
    }
  }

  // Releasing pages with no live block on them does not disturb the others
  lemma ReleaseLive(owner: seq<Owner>, held: map<Owner, nat>, zones: map<nat, Zone>,
                    used: map<nat, set<nat>>, live: map<nat, nat>, o: Owner)
    requires Holder(o) && o in held && Owns(owner, First(o), held[o], o)
    requires AllLive(live, owner, zones, used, held) && UsedLive(live, owner, used)
    requires forall p :: p in live && p / PAGE < |owner| ==> owner[p / PAGE] != o
    ensures AllLive(live, Claim(owner, First(o), held[o], Nobody), zones, used, held - {o})
    ensures UsedLive(live, Claim(owner, First(o), held[o], Nobody), used)
  {
    var owner', held' := Claim(owner, First(o), held[o], Nobody), held - {o};
    forall p | p in live ensures LiveAt(p, live[p], owner', zones, used, held') {
      assert LiveAt(p, live[p], owner, zones, used, held);
    }
    forall z | z in used ensures ZoneLive(live, owner', z, used[z]) {
      assert ZoneLive(live, owner, z, used[z]);
    }
  }

  lemma ZonesAdd(owner: seq<Owner>, held: map<Owner, nat>, zones: map<nat, Zone>,
                 used: map<nat, set<nat>>, live: map<nat, nat>, zp: nat, z: nat, n: Zone)
    requires ZonesOk(zones, used, held, zp) && InZone(z) !in held && !n.magic
    ensures z !in zones && ZonesOk(zones[z := n], used[z := {}], held[InZone(z) := zp], zp)
  {
  }

  lemma ZonesAddLive(owner: seq<Owner>, held: map<Owner, nat>, zones: map<nat, Zone>,
                     used: map<nat, set<nat>>, live: map<nat, nat>, z: nat, n: Zone)
    requires z !in zones && z !in used
    requires AllLive(live, owner, zones, used, held) && UsedLive(live, owner, used)
    ensures AllLive(live, owner, zones[z := n], used[z := {}], held)
    ensures UsedLive(live, owner, used[z := {}])
  {
    forall p | p in live ensures LiveAt(p, live[p], owner, zones[z := n], used[z := {}], held) {
      assert LiveAt(p, live[p], owner, zones, used, held);
    }
  }

  lemma AddZone(owner: seq<Owner>, held: map<Owner, nat>, zones: map<nat, Zone>,
                used: map<nat, set<nat>>, live: map<nat, nat>, zp: nat, z: nat, n: Zone)
    requires Book(owner, held, zones, used, live, zp) && Owns(owner, z, zp, Nobody) && !n.magic
    ensures z !in zones
    ensures Book(Claim(owner, z, zp, InZone(z)), held[InZone(z) := zp], zones[z := n], used[z := {}], live, zp)
  {
    hide OwnersOk, AllLive, UsedLive, LargeLive, ZoneOk;
    ClaimOk(owner, held, InZone(z), zp);
    ZonesAdd(owner, held, zones, used, live, zp, z, n);
    ClaimLive(owner, held, zones, used, live, InZone(z), zp);
    ZonesAddLive(Claim(owner, z, zp, InZone(z)), held[InZone(z) := zp], zones, used, live, z, n);
    LargeLiveFrame(live, held, live, held[InZone(z) := zp]);
  }

  lemma ZonesDrop(held: map<Owner, nat>, zones: map<nat, Zone>, used: map<nat, set<nat>>, zp: nat, z: nat)
    requires ZonesOk(zones, used, held, zp) && z in zones
    ensures ZonesOk(zones - {z}, used - {z}, held - {InZone(z)}, zp)
  {
  }

  // With no chunk of zone z in use, no live block is on its pages
  lemma ZoneEmpty(owner: seq<Owner>, held: map<Owner, nat>, zones: map<nat, Zone>,
                  used: map<nat, set<nat>>, live: map<nat, nat>, z: nat)
    requires AllLive(live, owner, zones, used, held) && z in used && used[z] == {}
    ensures forall p :: p in live && p / PAGE < |owner| ==> owner[p / PAGE] != InZone(z)
  {
    forall p | p in live && p / PAGE < |owner| ensures owner[p / PAGE] != InZone(z) {
      assert LiveAt(p, live[p], owner, zones, used, held);
    }
  }

  lemma ZonesDropLive(owner: seq<Owner>, held: map<Owner, nat>, zones: map<nat, Zone>,
                      used: map<nat, set<nat>>, live: map<nat, nat>, z: nat)
    requires AllLive(live, owner, zones, used, held) && UsedLive(live, owner, used)
    requires z in used && used[z] == {}
    ensures AllLive(live, owner, zones - {z}, used - {z}, held) && UsedLive(live, owner, used - {z})
  {
    forall p | p in live ensures LiveAt(p, live[p], owner, zones - {z}, used - {z}, held) {
      assert LiveAt(p, live[p], owner, zones, used, held);
    }
  }

  lemma DropZone(owner: seq<Owner>, held: map<Owner, nat>, zones: map<nat, Zone>,
                 used: map<nat, set<nat>>, live: map<nat, nat>, zp: nat, z: nat)
    requires Book(owner, held, zones, used, live, zp) && z in zones && used[z] == {}
    ensures Owns(owner, z, zp, InZone(z))
    ensures Book(Claim(owner, z, zp, Nobody), held - {InZone(z)}, zones - {z}, used - {z}, live, zp)
  {
    hide OwnersOk, AllLive, UsedLive, LargeLive, ZoneOk;
    ReleaseOk(owner, held, InZone(z));
    ZonesDrop(held, zones, used, zp, z);
    ZoneEmpty(owner, held, zones, used, live, z);
    ReleaseLive(owner, held, zones, used, live, InZone(z));
    ZonesDropLive(Claim(owner, z, zp, Nobody), held - {InZone(z)}, zones, used, live, z);
    LargeLiveFrame(live, held, live, held - {InZone(z)});
  }

  lemma AddLarge(owner: seq<Owner>, held: map<Owner, nat>, zones: map<nat, Zone>,
                 used: map<nat, set<nat>>, live: map<nat, nat>, zp: nat, b: nat, c: nat)
    requires Book(owner, held, zones, used, live, zp) && c > 0 && Owns(owner, b, c, Nobody)
    ensures b * PAGE !in live
    ensures Book(Claim(owner, b, c, InLarge(b)), held[InLarge(b) := c], zones, used,
                 live[b * PAGE := c * PAGE], zp)
  {
    hide OwnersOk, UsedLive, LargeLive, ZoneOk;
    PageOf(b);
    forall p | p in live ensures p != b * PAGE {
      assert LiveAt(p, live[p], owner, zones, used, held);
    }
    hide AllLive;
    ClaimOk(owner, held, InLarge(b), c);
    ClaimLive(owner, held, zones, used, live, InLarge(b), c);
    var owner', held' := Claim(owner, b, c, InLarge(b)), held[InLarge(b) := c];
    LiveAdd(owner', held', zones, used, live, b, c);
    LargeLiveAdd(live, held, b, c);
  }

  lemma LargeLiveAdd(live: map<nat, nat>, held: map<Owner, nat>, b: nat, c: nat)
    requires LargeLive(live, held)
    ensures LargeLive(live[b * PAGE := c * PAGE], held[InLarge(b) := c])
  {
  }

  lemma LiveAdd(owner: seq<Owner>, held: map<Owner, nat>, zones: map<nat, Zone>,
                used: map<nat, set<nat>>, live: map<nat, nat>, b: nat, c: nat)
    requires AllLive(live, owner, zones, used, held) && UsedLive(live, owner, used)
    requires LiveAt(b * PAGE, c * PAGE, owner, zones, used, held)
    ensures AllLive(live[b * PAGE := c * PAGE], owner, zones, used, held)
    ensures UsedLive(live[b * PAGE := c * PAGE], owner, used)
  {
    hide LiveAt;
  }

  lemma DropLarge(owner: seq<Owner>, held: map<Owner, nat>, zones: map<nat, Zone>,
                  used: map<nat, set<nat>>, live: map<nat, nat>, zp: nat, b: nat)
    requires Book(owner, held, zones, used, live, zp) && InLarge(b) in held
    ensures Owns(owner, b, held[InLarge(b)], InLarge(b)) && b * PAGE in live
    ensures Book(Claim(owner, b, held[InLarge(b)], Nobody), held - {InLarge(b)}, zones, used,
                 live - {b * PAGE}, zp)
  {
    hide ZoneOk, OwnersOk, UsedLive, AllLive;
    var live' := live - {b * PAGE};
    PageOf(b);
    ReleaseOk(owner, held, InLarge(b));
    LargeRemoved(owner, held, zones, used, live, b);
    LiveDrop(owner, held, zones, used, live, b);
    ReleaseLive(owner, held, zones, used, live', InLarge(b));
    LargeLiveFrame(live, held, live', held - {InLarge(b)});
  }

  lemma LargeRemoved(owner: seq<Owner>, held: map<Owner, nat>, zones: map<nat, Zone>,
                     used: map<nat, set<nat>>, live: map<nat, nat>, b: nat)
    requires AllLive(live, owner, zones, used, held)
    ensures forall p :: p in live - {b * PAGE} && p / PAGE < |owner| ==> owner[p / PAGE] != InLarge(b)
  {
    forall p | p in live - {b * PAGE} && p / PAGE < |owner| ensures owner[p / PAGE] != InLarge(b) {
      assert LiveAt(p, live[p], owner, zones, used, held);
    }
  }

  lemma LiveDrop(owner: seq<Owner>, held: map<Owner, nat>, zones: map<nat, Zone>,
                 used: map<nat, set<nat>>, live: map<nat, nat>, b: nat)
    requires AllLive(live, owner, zones, used, held) && UsedLive(live, owner, used)
    requires b < |owner| && owner[b] == InLarge(b)
    ensures AllLive(live - {b * PAGE}, owner, zones, used, held)
    ensures UsedLive(live - {b * PAGE}, owner, used)
  {
    hide LiveAt;
    PageOf(b);
    forall y | y in used ensures ZoneLive(live - {b * PAGE}, owner, y, used[y]) {
      assert ZoneLive(live, owner, y, used[y]);
    }
  }

  // ---- the zone lists ----

  // One list of zone_array: exactly the zones of class i with a free chunk, each once
  ghost predicate ClassList(l: seq<nat>, i: nat, zones: map<nat, Zone>) {
    && Distinct(l)
    && forall z :: z in l <==> z in zones && zones[z].magic && zones[z].zi == i && zones[z].nfree > 0
  }

  ghost predicate ClassLists(za: seq<seq<nat>>, zones: map<nat, Zone>) {
    |za| == NZONES && forall i :: 0 <= i < NZONES ==> ClassList(za[i], i, zones)
  }

  // zone_free holds the zones that serve no class, but for those in `spare`
  predicate FreeZones(zf: seq<nat>, spare: set<nat>, zones: map<nat, Zone>) {
    && Distinct(zf)
    && (forall z :: z in zf ==> z !in spare && z in zones && !zones[z].magic)
    && (forall z :: z in spare ==> z in zones && !zones[z].magic)
    && (forall z :: z in zones && !zones[z].magic && z !in zf ==> z in spare)
  }

  predicate Idle(n: Zone) {
    n.magic && n.nfree == n.nmax
  }

  predicate IdleIn(zones: map<nat, Zone>, z: nat, i: nat) {
    z in zones && Idle(zones[z]) && zones[z].zi == i
  }

  // No class keeps two zones without a block in use
  ghost predicate OneIdle(zones: map<nat, Zone>) {
    forall x, y, i :: IdleIn(zones, x, i) && IdleIn(zones, y, i) ==> x == y
  }

  lemma ClassUpdate(za: seq<seq<nat>>, zones: map<nat, Zone>, i: nat, l': seq<nat>, z: nat, n': Zone)
    requires ClassLists(za, zones) && i < NZONES && z in zones
    requires zones[z].magic ==> zones[z].zi == i
    requires n'.magic ==> n'.zi == i
    requires ClassList(l', i, zones[z := n'])
    ensures ClassLists(za[i := l'], zones[z := n'])
  {
    var za' := za[i := l'];
    forall j | 0 <= j < NZONES ensures ClassList(za'[j], j, zones[z := n']) {
      assert ClassList(za[j], j, zones);
    }
  }

  lemma ClassOther(za: seq<seq<nat>>, zones: map<nat, Zone>, zones': map<nat, Zone>, z: nat)
    requires ClassLists(za, zones)
    requires z in zones ==> !zones[z].magic
    requires z in zones' ==> !zones'[z].magic
    requires zones' - {z} == zones - {z}
    ensures ClassLists(za, zones')
  {
    forall j | 0 <= j < NZONES ensures ClassList(za[j], j, zones') {
      assert ClassList(za[j], j, zones);
      forall x ensures x in za[j] <==>
        x in zones' && zones'[x].magic && zones'[x].zi == j && zones'[x].nfree > 0 {
        if x != z {
          assert x in zones - {z} <==> x in zones;
          assert x in zones' - {z} <==> x in zones';
          assert x in zones ==> (zones - {z})[x] == zones[x];
          assert x in zones' ==> (zones' - {z})[x] == zones'[x];
        }
      }
    }
  }

  /** zone_array after a zone gave up its last free chunk. */
  lemma ClassFull(za: seq<seq<nat>>, zones: map<nat, Zone>, i: nat, n': Zone)
    requires ClassLists(za, zones) && i < NZONES && za[i] != []
    requires n'.magic && n'.zi == i
    ensures var z := za[i][0];
            z in zones && zones[z].magic && zones[z].zi == i && zones[z].nfree > 0 &&
            ClassLists(if n'.nfree == 0 then za[i := za[i][1..]] else za, zones[z := n'])
  {
    var z := za[i][0];
    assert ClassList(za[i], i, zones) && z in za[i];
    DistinctTail(za[i]);
    if n'.nfree == 0 {
      assert ClassList(za[i][1..], i, zones[z := n']);
      ClassUpdate(za, zones, i, za[i][1..], z, n');
    } else {
      assert ClassList(za[i], i, zones[z := n']);
      ClassUpdate(za, zones, i, za[i], z, n');
      assert za[i := za[i]] == za;
    }
  }

  /** zone_array after a zone got a free chunk back. */
  lemma ClassGain(za: seq<seq<nat>>, zones: map<nat, Zone>, z: nat, n': Zone)
    requires ClassLists(za, zones) && z in zones && (zones[z].magic ==> zones[z].zi == n'.zi)
    requires n'.magic && n'.zi < NZONES && n'.nfree > 0
    ensures var i := n'.zi;
            var l' := if zones[z].magic && zones[z].nfree > 0 then za[i] else [z] + za[i];
            ClassLists(za[i := l'], zones[z := n']) && z in l'
  {
    var i := n'.zi;
    assert ClassList(za[i], i, zones);
    if zones[z].magic && zones[z].nfree > 0 {
      assert ClassList(za[i], i, zones[z := n']);
      ClassUpdate(za, zones, i, za[i], z, n');
    } else {
      DistinctCons(z, za[i]);
      assert ClassList([z] + za[i], i, zones[z := n']);
      ClassUpdate(za, zones, i, [z] + za[i], z, n');
    }
  }

  lemma ClassRetire(za: seq<seq<nat>>, zones: map<nat, Zone>, z: nat)
    requires ClassLists(za, zones) && z in zones && zones[z].magic && zones[z].zi < NZONES
    ensures ClassLists(za[zones[z].zi := Without(za[zones[z].zi], z)], zones[z := zones[z].(magic := false)])
  {
    var i := zones[z].zi;
    assert ClassList(za[i], i, zones);
    WithoutMembers(za[i], z);
    assert ClassList(Without(za[i], z), i, zones[z := zones[z].(magic := false)]);
    ClassUpdate(za, zones, i, Without(za[i], z), z, zones[z].(magic := false));
  }

  lemma FreeZonesFrame(zf: seq<nat>, spare: set<nat>, zones: map<nat, Zone>, z: nat, n': Zone)
    requires FreeZones(zf, spare, zones) && z in zones && zones[z].magic && n'.magic
    ensures FreeZones(zf, spare, zones[z := n'])
  {
  }

  lemma FreeZonesPop(zf: seq<nat>, zones: map<nat, Zone>)
    requires FreeZones(zf, {}, zones) && zf != []
    ensures zf[0] in zones && !zones[zf[0]].magic && FreeZones(zf[1..], {zf[0]}, zones)
  {
    DistinctTail(zf);
  }

  lemma FreeZonesStart(zf: seq<nat>, zones: map<nat, Zone>, z: nat, n': Zone)
    requires FreeZones(zf, {z}, zones) && n'.magic
    ensures FreeZones(zf, {}, zones[z := n'])
  {
  }

  lemma FreeZonesPush(zf: seq<nat>, zones: map<nat, Zone>, z: nat, n': Zone)
    requires FreeZones(zf, {}, zones) && z in zones && zones[z].magic && !n'.magic
    ensures FreeZones([z] + zf, {}, zones[z := n'])
  {
    DistinctCons(z, zf);
  }

  lemma OneIdleBusy(zones: map<nat, Zone>, z: nat, n': Zone)
    requires OneIdle(zones) && !Idle(n')
    ensures OneIdle(zones[z := n'])
  {
    var zones' := zones[z := n'];
    forall x: nat, y: nat, i: nat | IdleIn(zones', x, i) && IdleIn(zones', y, i) ensures x == y {
      assert IdleIn(zones, x, i) && IdleIn(zones, y, i);
    }
  }

  /** The zone may stay when it is alone on its class list: any other idle zone would be there. */
  lemma OneIdleAlone(za: seq<seq<nat>>, zones: map<nat, Zone>, z: nat, n': Zone)
    requires OneIdle(zones) && z in zones
    requires ClassLists(za, zones[z := n']) && n'.zi < NZONES && za[n'.zi] == [z]
    requires n'.nfree > 0 && forall x :: x in zones && x != z && Idle(zones[x]) ==> zones[x].nfree > 0
    ensures OneIdle(zones[z := n'])
  {
    var zones' := zones[z := n'];
    assert ClassList(za[n'.zi], n'.zi, zones');
    forall x: nat, y: nat, i: nat | IdleIn(zones', x, i) && IdleIn(zones', y, i) ensures x == y {
      if i == n'.zi {
        assert x in za[n'.zi] && y in za[n'.zi];
      } else {
        assert IdleIn(zones, x, i) && IdleIn(zones, y, i);
      }
    }
  }

  /** A fresh zone starts to serve class zi. */
  lemma StartZoneOk(za: seq<seq<nat>>, zf: seq<nat>, zones: map<nat, Zone>, z: nat, n': Zone)
    requires ClassLists(za, zones) && FreeZones(zf, {z}, zones) && OneIdle(zones)
    requires n'.magic && n'.zi < NZONES && 0 < n'.nfree < n'.nmax
    ensures z in zones && !zones[z].magic
    ensures ClassLists(za[n'.zi := [z] + za[n'.zi]], zones[z := n'])
    ensures FreeZones(zf, {}, zones[z := n']) && OneIdle(zones[z := n'])
  {
    hide ClassLists, OneIdle;
    FreeZonesStart(zf, zones, z, n');
    ClassGain(za, zones, z, n');
    OneIdleBusy(zones, z, n');
  }

  /** A zone with no block in use goes to zone_free. */
  lemma RetireOk(za: seq<seq<nat>>, zf: seq<nat>, zones: map<nat, Zone>, z: nat)
    requires ClassLists(za, zones) && FreeZones(zf, {}, zones)
    requires z in zones && zones[z].magic && zones[z].zi < NZONES
    ensures ClassLists(za[zones[z].zi := Without(za[zones[z].zi], z)], zones[z := zones[z].(magic := false)])
    ensures FreeZones([z] + zf, {}, zones[z := zones[z].(magic := false)])
  {
    hide ClassLists, FreeZones;
    ClassRetire(za, zones, z);
    FreeZonesPush(zf, zones, z, zones[z].(magic := false));
  }

  /** Pages become a zone that serves no class yet. */
  lemma NewZoneOk(za: seq<seq<nat>>, zf: seq<nat>, zones: map<nat, Zone>, z: nat, n: Zone)
    requires ClassLists(za, zones) && FreeZones(zf, {}, zones) && OneIdle(zones)
    requires z !in zones && !n.magic
    ensures ClassLists(za, zones[z := n]) && FreeZones(zf, {z}, zones[z := n]) && OneIdle(zones[z := n])
  {
    assert zones[z := n] - {z} == zones - {z};
    ClassOther(za, zones, zones[z := n], z);
    OneIdleBusy(zones, z, n);
  }

  lemma GoneZoneOk(za: seq<seq<nat>>, zf: seq<nat>, zones: map<nat, Zone>)
    requires ClassLists(za, zones) && FreeZones(zf, {}, zones) && OneIdle(zones) && zf != []
    ensures var z := zf[0];
            && z in zones && !zones[z].magic
            && ClassLists(za, zones - {z}) && FreeZones(zf[1..], {}, zones - {z}) && OneIdle(zones - {z})
  {
    var z := zf[0];
    DistinctTail(zf);
    assert zones - {z} - {z} == zones - {z};
    ClassOther(za, zones, zones - {z}, z);
    forall x: nat, y: nat, i: nat | IdleIn(zones - {z}, x, i) && IdleIn(zones - {z}, y, i) ensures x == y {
      assert IdleIn(zones, x, i) && IdleIn(zones, y, i);
    }
  }

  // ---- the page list and the page map beside the owners ----

  lemma PagesTaken(l: seq<Run>, owner: seq<Owner>, n: nat, o: Owner)
    requires PagesOk(l, owner) && n > 0 && AllocList(l, n).0.Some? && o != Nobody
    ensures var a := AllocList(l, n).0.value;
            Owns(owner, a, n, Nobody) && PagesOk(AllocList(l, n).1, Claim(owner, a, n, o))
  {
    AllocFits(l, n);
    var a := AllocList(l, n).0.value;
    assert Has(l, a + n - 1);
    forall p | a <= p < a + n ensures p < |owner| && owner[p] == Nobody {
      assert Has(l, p);
    }
  }

  lemma PagesGiven(l: seq<Run>, owner: seq<Owner>, a: nat, n: nat, o: Owner)
    requires PagesOk(l, owner) && n > 0 && Owns(owner, a, n, o) && o != Nobody
    ensures PagesOk(FreeList(l, a, n), Claim(owner, a, n, Nobody))
  {
    assert NoneFree(l, a, n) by {
      forall p | a <= p < a + n ensures !Has(l, p) {
        assert owner[p] == o;
      }
    }
    FreeAdds(l, a, n);
  }

  // The page map with the entries of `n` pages from `a` rewritten
  function Rewritten(mem: seq<Usage>, a: nat, n: nat, kind: PageKind): (r: seq<Usage>)
    requires a + n <= |mem|
    ensures |r| == |mem|
    ensures forall p :: 0 <= p < |mem| ==>
              r[p] == if a <= p < a + n then Usage(kind, if kind == SmallPage then p - a else 0) else mem[p]
  {
    seq(|mem|, p requires 0 <= p < |mem| =>
      if a <= p < a + n then Usage(kind, if kind == SmallPage then p - a else 0) else mem[p])
  }

  lemma UsageZone(mem: seq<Usage>, owner: seq<Owner>, held: map<Owner, nat>, z: nat, zp: nat)
    requires UsageOk(mem, owner, held) && OwnersOk(owner, held) && Owns(owner, z, zp, Nobody)
    ensures UsageOk(Rewritten(mem, z, zp, SmallPage), Claim(owner, z, zp, InZone(z)), held[InZone(z) := zp])
  {
    forall o | o in held && o.InLarge? ensures !(z <= o.first < z + zp) {
      assert Owns(owner, First(o), held[o], o) && owner[o.first] == o;
    }
  }

  lemma UsageUnzone(mem: seq<Usage>, owner: seq<Owner>, held: map<Owner, nat>, z: nat, zp: nat)
    requires UsageOk(mem, owner, held) && OwnersOk(owner, held) && Owns(owner, z, zp, InZone(z))
    ensures UsageOk(Rewritten(mem, z, zp, FreePage), Claim(owner, z, zp, Nobody), held - {InZone(z)})
  {
    forall o | o in held && o.InLarge? ensures !(z <= o.first < z + zp) {
      assert Owns(owner, First(o), held[o], o) && owner[o.first] == o;
    }
  }

  lemma UsageLarge(mem: seq<Usage>, owner: seq<Owner>, held: map<Owner, nat>, b: nat, c: nat)
    requires UsageOk(mem, owner, held) && OwnersOk(owner, held) && c > 0 && Owns(owner, b, c, Nobody)
    ensures UsageOk(mem[b := Usage(LargePage, c)], Claim(owner, b, c, InLarge(b)), held[InLarge(b) := c])
  {
    assert owner[b] == Nobody;
    forall o | o in held && o.InLarge? ensures o.first != b {
      assert Owns(owner, First(o), held[o], o) && owner[o.first] == o;
    }
  }

  lemma UsageUnlarge(mem: seq<Usage>, owner: seq<Owner>, held: map<Owner, nat>, b: nat)
    requires UsageOk(mem, owner, held) && OwnersOk(owner, held) && InLarge(b) in held
    ensures b < |mem|
    ensures UsageOk(mem[b := Usage(LargePage, 0)], Claim(owner, b, held[InLarge(b)], Nobody), held - {InLarge(b)})
  {
    assert Owns(owner, b, held[InLarge(b)], InLarge(b)) && owner[b] == InLarge(b);
  }

  // ---- what it is all for ----

  // A live block lies within the pages of its owner
  lemma LivePages(owner: seq<Owner>, held: map<Owner, nat>, zones: map<nat, Zone>,
                  used: map<nat, set<nat>>, live: map<nat, nat>, zp: nat, p: nat)
    requires Book(owner, held, zones, used, live, zp) && p in live
    ensures p / PAGE < |owner| && var o := owner[p / PAGE];
            && o in held && Holder(o) && First(o) + held[o] <= |owner|
            && First(o) * PAGE <= p && p + live[p] <= (First(o) + held[o]) * PAGE
  {
    assert LiveAt(p, live[p], owner, zones, used, held);
    var o := owner[p / PAGE];
    assert Owns(owner, First(o), held[o], o);
    if o.InZone? {
      assert ZoneOk(o.zone, zones[o.zone], used[o.zone], zp);
      ZonePlace(o.zone, zones[o.zone], used[o.zone], zp, p);
    }
  }

  /** Live blocks lie inside the heap and never overlap. */
  lemma LiveDisjoint(owner: seq<Owner>, held: map<Owner, nat>, zones: map<nat, Zone>,
                     used: map<nat, set<nat>>, live: map<nat, nat>, zp: nat, p: nat, q: nat)
    requires Book(owner, held, zones, used, live, zp) && p in live && q in live
    ensures p + live[p] <= |owner| * PAGE
    ensures p != q ==> p + live[p] <= q || q + live[q] <= p
  {
    LivePages(owner, held, zones, used, live, zp, p);
    LivePages(owner, held, zones, used, live, zp, q);
    assert LiveAt(p, live[p], owner, zones, used, held);
    var o, o' := owner[p / PAGE], owner[q / PAGE];
    if o != o' {
      OwnedApart(owner, held, o, o');
    } else if p != q {
      assert LiveAt(q, live[q], owner, zones, used, held);
      assert ZoneOk(o.zone, zones[o.zone], used[o.zone], zp);
      SameZoneApart(o.zone, zones[o.zone], p, q);
    }
  }

  lemma SameZoneApart(z: nat, n: Zone, p: nat, q: nat)
    requires n.chunkSize > 0 && p != q
    requires IsChunk(z, n.chunkSize, n.uindex, p) && IsChunk(z, n.chunkSize, n.uindex, q)
    ensures p + n.chunkSize <= q || q + n.chunkSize <= p
  {
    var i: nat :| i <= n.uindex && p == ChunkAddr(z, n.chunkSize, i);
    var j: nat :| j <= n.uindex && q == ChunkAddr(z, n.chunkSize, j);
    if i < j {
      ChunksDisjoint(n.chunkSize, i, j);
    } else {
      ChunksDisjoint(n.chunkSize, j, i);
    }
  }

  // Only one zone has the chunk in use, and a large block is in none
  lemma OnlyZone(mem: seq<Usage>, owner: seq<Owner>, held: map<Owner, nat>, zones: map<nat, Zone>,
                 used: map<nat, set<nat>>, live: map<nat, nat>, zp: nat, p: nat)
    requires Book(owner, held, zones, used, live, zp) && UsageOk(mem, owner, held) && p in live
    ensures p / PAGE < |mem|
    ensures forall z :: z in used && p in used[z] ==>
              mem[p / PAGE].kind != LargePage && z == p / PAGE - mem[p / PAGE].size
  {
    PageMapFindsOwner(mem, owner, held, zones, used, live, zp, p);
    forall z | z in used && p in used[z]
      ensures mem[p / PAGE].kind != LargePage && z == p / PAGE - mem[p / PAGE].size
    {
      assert ZoneLive(live, owner, z, used[z]) && owner[p / PAGE] == InZone(z);
      if mem[p / PAGE].kind != LargePage {
        OtherZone(owner, used, live, p / PAGE - mem[p / PAGE].size, p);
      }
    }
  }

  lemma OtherZone(owner: seq<Owner>, used: map<nat, set<nat>>, live: map<nat, nat>, z: nat, p: nat)
    requires UsedLive(live, owner, used) && z in used && p in used[z]
    ensures p / PAGE < |owner| && owner[p / PAGE] == InZone(z)
  {
    assert ZoneLive(live, owner, z, used[z]);
  }

  /** The page map leads every live pointer back to what it came from. */
  lemma PageMapFindsOwner(mem: seq<Usage>, owner: seq<Owner>, held: map<Owner, nat>,
                          zones: map<nat, Zone>, used: map<nat, set<nat>>, live: map<nat, nat>,
                          zp: nat, p: nat)
    requires Book(owner, held, zones, used, live, zp) && UsageOk(mem, owner, held) && p in live
    ensures p / PAGE < |mem|
    ensures match mem[p / PAGE].kind
            case SmallPage =>
              var off := mem[p / PAGE].size;
              off <= p / PAGE && var z := p / PAGE - off;
              z in zones && zones[z].magic && p in used[z] && live[p] == zones[z].chunkSize
            case LargePage =>
              && InLarge(p / PAGE) in held && p == p / PAGE * PAGE
              && mem[p / PAGE].size == held[InLarge(p / PAGE)]
              && live[p] == held[InLarge(p / PAGE)] * PAGE
            case FreePage => false
  {
    assert LiveAt(p, live[p], owner, zones, used, held);
    if owner[p / PAGE].InLarge? {
      PageOf(owner[p / PAGE].first);
    }
  }
}
