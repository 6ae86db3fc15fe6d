/** rt-thread/src/slab.c: rt_malloc, rt_realloc and rt_free over zones and pages. */
module Slab {
  import opened Sequences
  import opened MapSum
  import opened PageList
  import opened Wrappers
  import opened SlabSizes
  import opened SlabRep

  const ZONE_RELEASE_THRESH: nat := 2
  const ZALLOC_MIN_ZONE_SIZE: nat := 32 * 1024
  const ZALLOC_MAX_ZONE_SIZE: nat := 128 * 1024

  // The bytes a successful rt_malloc(size) really reserves
  function Usable(size: nat, zp: nat): (u: nat)
    requires size > 0 && ZonePagesOk(zp)
    ensures u >= size
  {
    if size >= ZoneLimit(zp) then AlignUp(size, PAGE)
    else ZoneIndexSound(size); ZoneIndex(size).1
  }

  // No zone has a chunk for the request, and none is kept on zone_free
  ghost predicate NoZone(za: seq<seq<nat>>, zf: seq<nat>, size: nat) {
    zf == [] && 0 < size < 16384 && ZoneIndex(size).0 < |za| && za[ZoneIndex(size).0] == []
  }

  // The first zone of class i gives the chunk, and leaves the class with its last one
  ghost predicate Takes(zones: map<nat, Zone>, zones': map<nat, Zone>, za: seq<seq<nat>>, za': seq<seq<nat>>, i: nat,
      a: nat) {
    i < |za| && za[i] != [] &&
    var z := za[i][0];
    && z in zones && zones[z].nfree > 0 && (zones[z].uindex + 1 == zones[z].nmax ==> zones[z].freeChunks != [])
    && var (c, n) := TakeChunk(zones[z]);
       a == c && zones' == zones[z := n] && za' == za[i := if n.nfree == 0 then za[i][1..] else za[i]]
  }

  // No n free pages in a row anywhere
  lemma TakesFirst(zones: map<nat, Zone>, za: seq<seq<nat>>, i: nat)
    requires i < |za| && za[i] != [] && za[i][0] in zones && zones[za[i][0]].nfree > 0
    requires zones[za[i][0]].uindex + 1 == zones[za[i][0]].nmax ==> zones[za[i][0]].freeChunks != []
    ensures var (a, n) := TakeChunk(zones[za[i][0]]);
            Takes(zones, zones[za[i][0] := n], za, za[i := if n.nfree == 0 then za[i][1..] else za[i]], i, a)
  {
    hide TakeChunk;
  }

  // The zone z starts to serve class i, with its first chunk
  ghost predicate Starts(zones: map<nat, Zone>, za: seq<seq<nat>>, za': seq<seq<nat>>, i: nat, z: nat, a: nat) {
    && i < |za| && za' == za[i := [z] + za[i]] && ChunkSize(i) > 0
    && a == ChunkAddr(z, ChunkSize(i), 0) && z in zones && zones[z].base == a && zones[z].freeChunks == []
  }

  // The chunk goes back to its zone, which is linked at the front of its class when this is its only free chunk; an
  // idle zone beside others of its class is given up
  ghost predicate Gives(zones: map<nat, Zone>, zones': map<nat, Zone>, za: seq<seq<nat>>, za': seq<seq<nat>>, z: nat,
      a: nat) {
    z in zones && zones[z].zi < |za| &&
    var (n, i) := (GiveChunk(zones[z], a), zones[z].zi);
    var l := if zones[z].nfree == 0 then [z] + za[i] else za[i];
    (n.nfree == n.nmax && l != [z]) || (zones' == zones[z := n] && za' == za[i := l])
  }

  ghost predicate NoRun(l: seq<Run>, n: nat) {
    forall a: nat :: Blocked(l, a, n)
  }

  class SlabHeap {
    const npages: nat
    const zp: nat                   // zone_page_cnt
    var pageList: seq<Run>          // rt_page_list
    var mem: seq<Usage>             // memusage
    var zones: map<nat, Zone>       // the zone headers, by first page
    var zoneArray: seq<seq<nat>>
    var zoneFree: seq<nat>
    var zoneFreeCnt: nat
    var usedMem: nat
    var maxMem: nat
    ghost var owner: seq<Owner>
    ghost var held: map<Owner, nat>
    ghost var used: map<nat, set<nat>>
    ghost var live: map<nat, nat>   // the blocks in use: address and reserved size
    ghost var spare: set<nat>       // a zone on its way between two lists

    ghost predicate Valid()
      reads this
    {
      && ZonePagesOk(zp)
      && |owner| == |mem| == npages
      && PagesOk(pageList, owner)
      && UsageOk(mem, owner, held)
      && Book(owner, held, zones, used, live, zp)
      && |zoneArray| == NZONES && ClassLists(zoneArray, zones)
      && FreeZones(zoneFree, spare, zones)
      && zoneFreeCnt == |zoneFree|
      && usedMem == Sum(live)
    }

    // Between two calls
    ghost predicate Ready()
      reads this
    {
      Valid() && spare == {} && zoneFreeCnt <= ZONE_RELEASE_THRESH && OneIdle(zones)
    }

    // rt_system_heap_init on `npages` pages; the first ones hold the page map itself
    constructor (npages: nat)
      requires 0 < npages && npages * PAGE < 0x1_0000_0000
      ensures Ready() && live == map[] && usedMem == 0 && maxMem == 0
      ensures this.npages == npages
      ensures var k := AlignUp(npages * 4, PAGE) / PAGE;
              pageList == if k == npages then [] else [Run(k, npages - k)]
    {
      var zoneSize := ZoneSize(npages * PAGE);
      this.npages := npages;
      zp := zoneSize / PAGE;
      pageList := [];
      mem := seq(npages, _ => Usage(FreePage, 0));
      zones := map[];
      zoneArray := seq(NZONES, _ => []);
      zoneFree := [];
      zoneFreeCnt := 0;
      usedMem, maxMem := 0, 0;
      var reserved := AlignUp(npages * 4, PAGE) / PAGE;
      owner := seq(npages, p => if 0 <= p < reserved then Reserved else Nobody);
      held := map[];
      used := map[];
      live := map[];
      spare := {};
      new;
      hide Book, UsageOk, ClassLists, FreeZones, OneIdle, PagesOk, AllocList, FreeList;
      EmptyHeap(owner, mem, zoneArray, zp, npages);
      PageFree(0, npages);
      var k := AlignUp(npages * 4, PAGE) / PAGE;
      FirstPages(npages, k);
      var _ := PageAlloc(k);
    }

    // The zone size grows with the heap, by powers of two within the limits
    static method ZoneSize(limsize: nat) returns (size: nat)
      ensures ZonePagesOk(size / PAGE) && size % PAGE == 0
      ensures size in {ZALLOC_MIN_ZONE_SIZE, 65536, ZALLOC_MAX_ZONE_SIZE}
      ensures size > ZALLOC_MIN_ZONE_SIZE ==> size < limsize / 1024
      ensures size < ZALLOC_MAX_ZONE_SIZE ==> limsize / 1024 <= size * 2
    {
      size := ZALLOC_MIN_ZONE_SIZE;
      while size < ZALLOC_MAX_ZONE_SIZE && size * 2 < limsize / 1024
        invariant size == 32768 || size == 65536 || size == 131072
        invariant size > ZALLOC_MIN_ZONE_SIZE ==> size < limsize / 1024
        decreases ZALLOC_MAX_ZONE_SIZE - size
      {
        size := size * 2;
      }
    }

    /** What holds between any two calls, whatever was called before: live blocks lie inside the
        heap and are pairwise disjoint, the byte counter is exact, every class keeps at most one
        zone without a block in use and zone_free at most two, every free chunk is counted, and
        the page list is the canonical list of the pages nobody uses. */
    lemma ReadyMeans()
      requires Ready()
      ensures forall p :: p in live ==> p + live[p] <= npages * PAGE
      ensures forall p, q :: p in live && q in live && p != q ==> p + live[p] <= q || q + live[q] <= p
      ensures usedMem == Sum(live) && |zoneFree| <= ZONE_RELEASE_THRESH
      ensures forall z :: z in zones && zones[z].magic ==>
                && zones[z].nmax >= 3
                && zones[z].nfree == zones[z].nmax - 1 - zones[z].uindex + |zones[z].freeChunks|
                && zones[z].zi < |zoneArray|
                && (z in zoneArray[zones[z].zi] <==> zones[z].nfree > 0)
                && z !in zoneFree
      ensures forall x: nat, y: nat, i: nat :: IdleIn(zones, x, i) && IdleIn(zones, y, i) ==> x == y
      ensures Canonical(pageList)
    {
      forall p, q | p in live && q in live
        ensures p + live[p] <= npages * PAGE && (p != q ==> p + live[p] <= q || q + live[q] <= p)
      {
        LiveDisjoint(owner, held, zones, used, live, zp, p, q);
      }
      forall z | z in zones && zones[z].magic
        ensures ZoneOk(z, zones[z], used[z], zp)
        ensures z in zoneArray[zones[z].zi] <==> zones[z].nfree > 0
      {
        assert ZoneOk(z, zones[z], used[z], zp);
        assert ClassList(zoneArray[zones[z].zi], zones[z].zi, zones);
      }
    }

    // rt_page_alloc
    method PageAlloc(n: nat) returns (r: Option<nat>)
      requires Canonical(pageList)
      modifies `pageList
      ensures n == 0 ==> r == None && pageList == old(pageList)
      ensures n > 0 ==> r == AllocList(old(pageList), n).0 && pageList == AllocList(old(pageList), n).1
    {
      if n == 0 {
        return None;
      }
      var i := 0;
      while i < |pageList|
        invariant 0 <= i <= |pageList| && pageList == old(pageList)
        invariant forall j :: 0 <= j < i ==> pageList[j].count < n
      {
        var b := pageList[i];
        AllocPrefix(pageList, i, n);
        assert pageList[i..][0] == b && pageList[i..][1..] == pageList[i + 1..];
        if b.count > n {
          pageList := pageList[..i] + ([Run(b.start + n, b.count - n)] + pageList[i + 1..]);
          return Some(b.start);
        }
        if b.count == n {
          pageList := pageList[..i] + pageList[i + 1..];
          return Some(b.start);
        }
        i := i + 1;
      }
      AllocPrefix(pageList, i, n);
      assert pageList[i..] == [] && pageList[..i] == pageList;
      r := None;
    }

    // rt_page_free
    method PageFree(a: nat, n: nat)
      requires n > 0
      modifies `pageList
      ensures pageList == FreeList(old(pageList), a, n)
    {
      var i := 0;
      while i < |pageList|
        invariant 0 <= i <= |pageList| && pageList == old(pageList)
        invariant forall j :: 0 <= j < i ==> Skips(pageList[j], a, n)
      {
        var b := pageList[i];
        FreePrefix(pageList, i, a, n);
        ghost var l := pageList[i..];
        assert l[0] == b && l[1..] == pageList[i + 1..];
        if b.End() == a {
          if i + 1 < |pageList| && a + n == pageList[i + 1].start {
            assert l[1] == pageList[i + 1] && l[2..] == pageList[i + 2..];
            pageList := pageList[..i] + ([Run(b.start, b.count + n + pageList[i + 1].count)] + pageList[i + 2..]);
          } else {
            pageList := pageList[..i] + ([Run(b.start, b.count + n)] + pageList[i + 1..]);
          }
          return;
        }
        if b.start == a + n {
          pageList := pageList[..i] + ([Run(a, n + b.count)] + pageList[i + 1..]);
          return;
        }
        if b.start > a + n {
          break;
        }
        i := i + 1;
      }
      FreePrefix(pageList, i, a, n);
      pageList := pageList[..i] + ([Run(a, n)] + pageList[i..]);
    }

    // RT_MEM_STATS
    method Account(bytes: nat)
      modifies `usedMem, `maxMem
      ensures usedMem == old(usedMem) + bytes
      ensures maxMem == if usedMem > old(maxMem) then usedMem else old(maxMem)
    {
      usedMem := usedMem + bytes;
      if usedMem > maxMem {
        maxMem := usedMem;
      }
    }

    // Large request: whole pages
    method MallocLarge(size: nat) returns (r: Option<nat>)
      requires Ready() && size > 0
      modifies this
      ensures Ready()
      ensures r.Some? ==> r.value !in old(live) && live == old(live)[r.value := AlignUp(size, PAGE)]
      ensures r.None? <==> NoRun(old(pageList), AlignUp(size, PAGE) / PAGE)
      ensures r.None? ==> live == old(live)
    {
      hide Book, UsageOk, ClassLists, FreeZones, OneIdle, Canonical, AllocList, NoRun;
      var bytes := AlignUp(size, PAGE);
      var c := bytes / PAGE;
      var b := PageAlloc(c);
      PagesKept(old(pageList), c);
      if b == None {
        return None;
      }
      var first := b.value;
      PagesTaken(old(pageList), owner, c, InLarge(first));
      AddLargeState(first, c);
      mem := mem[first := Usage(LargePage, c)];
      Account(bytes);
      return Some(first * PAGE);
    }

    // The ghost half of MallocLarge
    ghost method AddLargeState(b: nat, c: nat)
      requires Book(owner, held, zones, used, live, zp) && UsageOk(mem, owner, held) && usedMem == Sum(live)
      requires c > 0 && Owns(owner, b, c, Nobody)
      modifies `owner, `held, `live
      ensures b < |mem| && b * PAGE !in old(live) && live == old(live)[b * PAGE := c * PAGE]
      ensures owner == Claim(old(owner), b, c, InLarge(b)) && held == old(held)[InLarge(b) := c]
      ensures Book(owner, held, zones, used, live, zp)
      ensures UsageOk(mem[b := Usage(LargePage, c)], owner, held) && usedMem + c * PAGE == Sum(live)
    {
      AddLarge(owner, held, zones, used, live, zp, b, c);
      UsageLarge(mem, owner, held, b, c);
      SumAdd(live, b * PAGE, c * PAGE);
      owner, held, live := Claim(owner, b, c, InLarge(b)), held[InLarge(b) := c], live[b * PAGE := c * PAGE];
    }

    // A zone of class zi has a free chunk
    method MallocFromClass(zi: nat) returns (a: nat)
      requires Ready() && zi < NZONES && zoneArray[zi] != []
      modifies this
      ensures Ready() && a !in old(live) && live == old(live)[a := ChunkSize(zi)]
      ensures Takes(old(zones), zones, old(zoneArray), zoneArray, zi, a)
    {
      hide Book, UsageOk, FreeZones, OneIdle, PagesOk, ClassLists, ZoneOk, TakeChunk, Takes, ChunkSize;
      var z := zoneArray[zi][0];
      ListedZone(zoneArray, zones, used, held, owner, live, zp, zi);
      TakeChunkOk(z, zones[z], used[z], zp);
      var (chunk, n') := TakeChunk(zones[z]);
      TakesFirst(zones, zoneArray, zi);
      AddChunkState(z, n', chunk);
      UpdateFirst(zi, n');
      Account(n'.chunkSize);
      a := chunk;
    }

    // Write back the first zone of a class, and unlink it if it is full
    method UpdateFirst(zi: nat, n': Zone)
      requires zi < |zoneArray| == NZONES && ClassLists(zoneArray, zones) && zoneArray[zi] != []
      requires n'.magic && n'.zi == zi
      modifies `zoneArray, `zones
      ensures zones == old(zones)[old(zoneArray)[zi][0] := n']
      ensures zoneArray == old(zoneArray)[zi := if n'.nfree == 0 then old(zoneArray)[zi][1..] else old(zoneArray)[zi]]
      ensures |zoneArray| == NZONES && ClassLists(zoneArray, zones)
    {
      hide ClassLists;
      var z := zoneArray[zi][0];
      ClassFull(zoneArray, zones, zi, n');
      if n'.nfree == 0 {
        zoneArray := zoneArray[zi := zoneArray[zi][1..]];
      }
      zones := zones[z := n'];
    }

    // The ghost half of handing out a chunk
    ghost method AddChunkState(z: nat, n': Zone, a: nat)
      requires Valid() && spare == {} && OneIdle(zones)
      requires z in zones && z in used && a !in used[z] && zones[z].magic
      requires n'.magic && n'.chunkSize == zones[z].chunkSize && n'.nfree < n'.nmax
      requires ZoneOk(z, n', used[z] + {a}, zp)
      modifies `used, `live
      ensures a !in old(live) && live == old(live)[a := n'.chunkSize]
      ensures Book(owner, held, zones[z := n'], used, live, zp)
      ensures FreeZones(zoneFree, spare, zones[z := n']) && OneIdle(zones[z := n'])
      ensures usedMem + n'.chunkSize == Sum(live)
    {
      hide Book, UsageOk, FreeZones, OneIdle, PagesOk, ClassLists, ZoneOk;
      AddChunk(owner, held, zones, used, live, zp, z, n', a);
      FreeZonesFrame(zoneFree, {}, zones, z, n');
      OneIdleBusy(zones, z, n');
      SumAdd(live, a, n'.chunkSize);
      used := used[z := used[z] + {a}];
      live := live[a := n'.chunkSize];
    }

    // A zone for a class that has none: one kept on zone_free, or new pages
    method ObtainZone() returns (r: Option<nat>)
      requires Ready()
      modifies this
      ensures Valid() && zoneFreeCnt <= ZONE_RELEASE_THRESH && OneIdle(zones)
      ensures live == old(live) && zoneArray == old(zoneArray)
      ensures r.Some? ==> spare == {r.value}
      ensures r.None? <==> old(zoneFree) == [] && NoRun(old(pageList), zp)
      ensures r.None? ==> spare == {}
    {
      hide Book, UsageOk, ClassLists, OneIdle, PagesOk, FreeZones, NoRun;
      if zoneFree != [] {
        var z := zoneFree[0];
        FreeZonesPop(zoneFree, zones);
        zoneFree := zoneFree[1..];
        zoneFreeCnt := zoneFreeCnt - 1;
        spare := {z};
        return Some(z);
      }
      r := NewZone();
    }

    method NewZone() returns (r: Option<nat>)
      requires Ready()
      modifies this
      ensures Valid() && zoneFreeCnt == old(zoneFreeCnt) && OneIdle(zones)
      ensures live == old(live) && zoneArray == old(zoneArray)
      ensures r.Some? ==> spare == {r.value}
      ensures r.None? <==> NoRun(old(pageList), zp)
      ensures r.None? ==> spare == {}
    {
      hide Book, UsageOk, ClassLists, FreeZones, OneIdle, Canonical, AllocList, NoRun;
      var b := PageAlloc(zp);
      PagesKept(old(pageList), zp);
      if b == None {
        return None;
      }
      var z := b.value;
      PagesTaken(old(pageList), owner, zp, InZone(z));
      MarkPages(z, SmallPage);
      EnterZone(old(mem), z);
      return Some(z);
    }

    // Zone z enters the books, serving no class yet
    method EnterZone(ghost before: seq<Usage>, z: nat)
      requires Book(owner, held, zones, used, live, zp)
      requires |before| == |owner| && UsageOk(before, owner, held)
      requires ClassLists(zoneArray, zones) && FreeZones(zoneFree, {}, zones) && OneIdle(zones)
      requires Owns(owner, z, zp, Nobody)
      modifies `owner, `held, `zones, `used, `spare
      ensures owner == Claim(old(owner), z, zp, InZone(z)) && spare == {z}
      ensures Book(owner, held, zones, used, live, zp)
      ensures |before| == |owner| && UsageOk(Rewritten(before, z, zp, SmallPage), owner, held)
      ensures ClassLists(zoneArray, zones) && FreeZones(zoneFree, {z}, zones) && OneIdle(zones)
    {
      hide UsageOk, ClassLists, FreeZones, OneIdle;
      var blank := Zone(false, 0, 0, 0, 0, 0, 0, []);
      UsageZone(before, owner, held, z, zp);
      hide Book;
      AddZone(owner, held, zones, used, live, zp, z, blank);
      NewZoneOk(zoneArray, zoneFree, zones, z, blank);
      owner, held := Claim(owner, z, zp, InZone(z)), held[InZone(z) := zp];
      zones, used, spare := zones[z := blank], used[z := {}], {z};
    }

    // The loops over memusage: the offset in the zone for PAGE_TYPE_SMALL, 0 for PAGE_TYPE_FREE
    method MarkPages(z: nat, kind: PageKind)
      requires z + zp <= |mem|
      modifies `mem
      ensures mem == Rewritten(old(mem), z, zp, kind)
    {
      var off := 0;
      while off < zp
        invariant 0 <= off <= zp && |mem| == |old(mem)|
        invariant forall p :: 0 <= p < |mem| ==>
          mem[p] == if z <= p < z + off then Usage(kind, if kind == SmallPage then p - z else 0) else old(mem)[p]
      {
        mem := mem[z + off := Usage(kind, if kind == SmallPage then off else 0)];
        off := off + 1;
      }
    }

    // Write the header of the spare zone and hand out its first chunk
    method StartZone(z: nat, zi: nat) returns (a: nat)
      requires Valid() && spare == {z} && zoneFreeCnt <= ZONE_RELEASE_THRESH && OneIdle(zones)
      requires zi < NZONES && NMax(zp * PAGE, ChunkSize(zi)) >= 3
      modifies this
      ensures Ready() && a !in old(live) && live == old(live)[a := ChunkSize(zi)]
      ensures Starts(zones, old(zoneArray), zoneArray, zi, z, a)
    {
      hide Book, UsageOk, ClassLists, FreeZones, OneIdle, PagesOk, ZoneOk, NMax, Offset, ChunkSize;
      ChunkSizeAligned(zi);
      var n' := ZoneHeader(z, zi, ChunkSize(zi), zp);
      StartZoneOk(zoneArray, zoneFree, zones, z, n');
      StartZoneState(z, zi, n');
      zones := zones[z := n'];
      zoneArray := zoneArray[zi := [z] + zoneArray[zi]];
      Account(n'.chunkSize);
      a := n'.base;
    }

    // The fields of the header; `off` keeps room for the header and aligns the chunks
    static method ZoneHeader(z: nat, zi: nat, size: nat, zp: nat) returns (n: Zone)
      requires size == ChunkSize(zi) > 0 && NMax(zp * PAGE, size) >= 3
      ensures n == FreshZone(z, zi, zp)
    {
      hide AlignUp, BitTest, PowerOfTwo;
      PowerOfTwoTest(size);
      var off := if BitTest(size) then AlignUp(HEADER, size) else AlignUp(HEADER, MIN_CHUNK);
      var nmax := (zp * PAGE - off) / size;
      n := Zone(true, nmax - 1, nmax, z * PAGE + off, 0, size, zi, []);
    }

    ghost method StartZoneState(z: nat, zi: nat, n': Zone)
      requires Book(owner, held, zones, used, live, zp) && usedMem == Sum(live)
      requires z in zones && !zones[z].magic
      requires zi < NZONES && ChunkSize(zi) > 0 && NMax(zp * PAGE, ChunkSize(zi)) >= 3
      requires n' == FreshZone(z, zi, zp)
      modifies `used, `live, `spare
      ensures spare == {} && n'.base !in old(live) && live == old(live)[n'.base := n'.chunkSize]
      ensures Book(owner, held, zones[z := n'], used, live, zp)
      ensures usedMem + n'.chunkSize == Sum(live)
    {
      hide Book, ZoneOk;
      FreshZoneOk(z, zi, zp);
      SpareEmpty(owner, held, zones, used, live, zp, z);
      assert used[z] + {n'.base} == {n'.base};
      AddChunk(owner, held, zones, used, live, zp, z, n', n'.base);
      SumAdd(live, n'.base, n'.chunkSize);
      used, live := used[z := used[z] + {n'.base}], live[n'.base := n'.chunkSize];
      spare := {};
    }

    // A large request needs its pages in a row; a small one a zone of its class, or one of zone_free, or new pages
    ghost predicate NoMemory(size: nat)
      reads this
    {
      if size >= ZoneLimit(zp) then NoRun(pageList, AlignUp(size, PAGE) / PAGE)
      else NoRun(pageList, zp) && NoZone(zoneArray, zoneFree, size)
    }

    /** rt_malloc */
    method Malloc(size: nat) returns (r: Option<nat>)
      requires Ready()
      modifies this
      ensures Ready()
      ensures size == 0 ==> r == None && live == old(live)
      ensures size > 0 && r.Some? ==>
        r.value !in old(live) && live == old(live)[r.value := Usable(size, zp)]
      ensures r.None? ==> live == old(live)
      ensures size > 0 ==> (r.None? <==> old(NoMemory(size)))
      ensures |old(zoneArray)| == NZONES && (0 < size < ZoneLimit(zp) ==> size < 16384 && ZoneIndex(size).0 < NZONES)
      ensures 0 < size < ZoneLimit(zp) && old(zoneArray)[ZoneIndex(size).0] != [] ==>
                r.Some? && Takes(old(zones), zones, old(zoneArray), zoneArray, ZoneIndex(size).0, r.value)
      ensures 0 < size < ZoneLimit(zp) && old(zoneArray)[ZoneIndex(size).0] == [] && r.Some? ==>
                exists z :: Starts(zones, old(zoneArray), zoneArray, ZoneIndex(size).0, z, r.value)
    {
      ReadyZp();
      hide Ready, Valid, NoRun, NoZone, ZoneIndex, Takes, Starts;
      if size == 0 {
        return None;
      }
      if size >= ZoneLimit(zp) {
        r := MallocLarge(size);
        return;
      }
      r := MallocSmall(size);
    }

    lemma ReadyZp()
      requires Ready()
      ensures ZonePagesOk(zp) && |zoneArray| == NZONES
    {
    }

    method MallocSmall(size: nat) returns (r: Option<nat>)
      requires Ready() && 0 < size < ZoneLimit(zp) && size < 16384
      modifies this
      ensures Ready()
      ensures r.Some? ==> r.value !in old(live) && live == old(live)[r.value := ZoneIndex(size).1]
      ensures r.None? <==> NoRun(old(pageList), zp) && NoZone(old(zoneArray), old(zoneFree), size)
      ensures r.None? ==> live == old(live)
      ensures ZoneIndex(size).0 < NZONES == |old(zoneArray)|
      ensures old(zoneArray)[ZoneIndex(size).0] != [] ==>
                r.Some? && Takes(old(zones), zones, old(zoneArray), zoneArray, ZoneIndex(size).0, r.value)
      ensures old(zoneArray)[ZoneIndex(size).0] == [] && r.Some? ==>
                exists z :: Starts(zones, old(zoneArray), zoneArray, ZoneIndex(size).0, z, r.value)
    {
      hide Book, UsageOk, ClassLists, FreeZones, OneIdle, PagesOk, ZoneIndex, NMax, ChunkSize, Takes, Starts, NoRun;
      ZoneIndexSound(size);
      AtLeastThree(zp, size);
      var (zi, _) := ZoneIndex(size);
      if zoneArray[zi] != [] {
        var a := MallocFromClass(zi);
        return Some(a);
      }
      var z := ObtainZone();
      if z == None {
        return None;
      }
      var a := StartZone(z.value, zi);
      return Some(a);
    }

    // Free of a large block
    method FreeLarge(b: nat)
      requires Ready() && InLarge(b) in held && b < |mem| && mem[b] == Usage(LargePage, held[InLarge(b)])
      modifies this
      ensures Ready() && b * PAGE in old(live) && live == old(live) - {b * PAGE}
    {
      hide Book, UsageOk, ClassLists, FreeZones, OneIdle, PagesOk;
      var size := mem[b].size;
      DropLargeState(b);
      mem := mem[b := Usage(LargePage, 0)];
      usedMem := usedMem - size * PAGE;
      PageFree(b, size);
    }

    ghost method DropLargeState(b: nat)
      requires Book(owner, held, zones, used, live, zp) && UsageOk(mem, owner, held) && usedMem == Sum(live)
      requires InLarge(b) in held && PagesOk(pageList, owner)
      modifies `owner, `held, `live
      ensures var c := old(held)[InLarge(b)];
              && c > 0 && b < |mem| && |owner| == |old(owner)|
              && b * PAGE in old(live) && live == old(live) - {b * PAGE}
              && PagesOk(FreeList(pageList, b, c), owner)
              && UsageOk(mem[b := Usage(LargePage, 0)], owner, held)
              && usedMem == c * PAGE + Sum(live)
      ensures Book(owner, held, zones, used, live, zp)
    {
      hide Book, UsageOk, PagesOk, OwnersOk;
      var c := held[InLarge(b)];
      BookOwners(owner, held, zones, used, live, zp);
      UsageUnlarge(mem, owner, held, b);
      DropLargeSize(owner, held, zones, used, live, zp, b);
      DropLarge(owner, held, zones, used, live, zp, b);
      PagesGiven(pageList, owner, b, c, InLarge(b));
      SumRemove(live, b * PAGE);
      owner, held, live := Claim(owner, b, c, Nobody), held - {InLarge(b)}, live - {b * PAGE};
    }

    // Free of a chunk into its zone
    method FreeChunk(z: nat, a: nat)
      requires Ready() && z in zones && z in used && zones[z].magic && a in used[z]
      modifies this
      ensures Ready() && a in old(live) && live == old(live) - {a}
      ensures Gives(old(zones), zones, old(zoneArray), zoneArray, z, a)
    {
      hide Book, UsageOk, ClassLists, FreeZones, PagesOk, OneIdle, ZoneOk;
      ZoneFacts(owner, held, zones, used, live, zp, z);
      var zi := zones[z].zi;
      var n' := GiveChunk(zones[z], a);
      ClassGain(zoneArray, zones, z, n');
      ghost var before := zones;
      DropChunkState(z, n', a);
      // linked again at the front when the first chunk comes back
      var l := if zones[z].nfree == 0 then [z] + zoneArray[zi] else zoneArray[zi];
      usedMem := usedMem - n'.chunkSize;
      zones := zones[z := n'];
      zoneArray := zoneArray[zi := l];
      if n'.nfree == n'.nmax && zoneArray[zi] != [z] {
        RetireZone(z, before);
      } else {
        StaysOneIdle(zoneArray, before, z, n', owner, held, used, live, zp);
      }
    }

    ghost method DropChunkState(z: nat, n': Zone, a: nat)
      requires Book(owner, held, zones, used, live, zp) && usedMem == Sum(live)
      requires z in zones && z in used && zones[z].magic && a in used[z]
      requires n' == GiveChunk(zones[z], a) && FreeZones(zoneFree, {}, zones)
      modifies `used, `live
      ensures a in old(live) && live == old(live) - {a} && used == old(used)[z := old(used)[z] - {a}]
      ensures Book(owner, held, zones[z := n'], used, live, zp)
      ensures FreeZones(zoneFree, {}, zones[z := n'])
      ensures usedMem == n'.chunkSize + Sum(live)
    {
      hide Book, ZoneOk, FreeZones;
      ZoneFacts(owner, held, zones, used, live, zp, z);
      DropChunkSize(owner, held, zones, used, live, zp, z, a);
      GiveChunkOk(z, zones[z], used[z], zp, a);
      DropChunk(owner, held, zones, used, live, zp, z, n', a);
      FreeZonesFrame(zoneFree, {}, zones, z, n');
      SumRemove(live, a);
      used, live := used[z := used[z] - {a}], live - {a};
    }

    // The zone became totally free and its class has another zone: move it to zone_free
    method RetireZone(z: nat, ghost before: map<nat, Zone>)
      requires Valid() && spare == {} && zoneFreeCnt <= ZONE_RELEASE_THRESH
      requires z in zones && zones[z].magic && zones[z].nfree == zones[z].nmax
      requires z in before && zones == before[z := zones[z]] && OneIdle(before)
      modifies this
      ensures Ready() && live == old(live)
    {
      hide Book, UsageOk, ClassLists, FreeZones, PagesOk, OneIdle, ZoneOk;
      ZoneFacts(owner, held, zones, used, live, zp, z);
      var zi := zones[z].zi;
      var n' := zones[z].(magic := false);
      RetireOk(zoneArray, zoneFree, zones, z);
      Retire(owner, held, zones, used, live, zp, z);
      OneIdleBusy(before, z, n');
      assert before[z := n'] == zones[z := n'];
      var l := Unlink(zoneArray[zi], z);
      zoneArray := zoneArray[zi := l];
      zones := zones[z := n'];
      zoneFree := [z] + zoneFree;
      zoneFreeCnt := zoneFreeCnt + 1;
      if zoneFreeCnt > ZONE_RELEASE_THRESH {
        ReleaseZone();
      }
    }

    // The zone is looked up on the list of its class and unlinked
    method Unlink(l: seq<nat>, z: nat) returns (r: seq<nat>)
      ensures r == Without(l, z)
    {
      var i := 0;
      while i < |l| && l[i] != z
        invariant 0 <= i <= |l|
        invariant Without(l, z) == l[..i] + Without(l[i..], z)
      {
        assert l[i..][0] == l[i] && l[i..][1..] == l[i + 1..];
        assert l[..i] + ([l[i]] + Without(l[i + 1..], z)) == l[..i + 1] + Without(l[i + 1..], z);
        i := i + 1;
      }
      if i < |l| {
        assert l[i..][0] == z && l[i..][1..] == l[i + 1..];
        r := l[..i] + l[i + 1..];
      } else {
        assert l[i..] == [];
        r := l;
      }
    }

    // Give the first zone on zone_free back to the page allocator
    method ReleaseZone()
      requires Valid() && spare == {} && zoneFree != [] && zoneFreeCnt == ZONE_RELEASE_THRESH + 1
      requires OneIdle(zones)
      modifies this
      ensures Ready() && live == old(live)
    {
      hide Book, UsageOk, ClassLists, FreeZones, PagesOk, OneIdle;
      var z := zoneFree[0];
      LeaveZone();
      zoneFree := zoneFree[1..];
      zoneFreeCnt := zoneFreeCnt - 1;
      MarkPages(z, FreePage);
      PageFree(z, zp);
    }

    method LeaveZone()
      requires Book(owner, held, zones, used, live, zp) && UsageOk(mem, owner, held)
      requires PagesOk(pageList, owner) && zoneFree != []
      requires ClassLists(zoneArray, zones) && FreeZones(zoneFree, {}, zones) && OneIdle(zones)
      modifies `owner, `held, `zones, `used
      ensures var z := zoneFree[0];
              && |owner| == |old(owner)| && z + zp <= |mem| && zp > 0
              && PagesOk(FreeList(pageList, z, zp), owner)
              && UsageOk(Rewritten(mem, z, zp, FreePage), owner, held)
      ensures Book(owner, held, zones, used, live, zp)
      ensures ClassLists(zoneArray, zones) && FreeZones(zoneFree[1..], {}, zones) && OneIdle(zones)
    {
      hide ClassLists, FreeZones, OneIdle, PagesOk, Book, UsageOk, OwnersOk;
      var z := zoneFree[0];
      GoneZoneOk(zoneArray, zoneFree, zones);
      BookOwners(owner, held, zones, used, live, zp);
      SpareEmpty(owner, held, zones, used, live, zp, z);
      DropZone(owner, held, zones, used, live, zp, z);
      UsageUnzone(mem, owner, held, z, zp);
      PagesGiven(pageList, owner, z, zp, InZone(z));
      owner, held := Claim(owner, z, zp, Nobody), held - {InZone(z)};
      zones, used := zones - {z}, used - {z};
    }

    /** rt_free */
    method Free(ptr: nat)
      requires Ready() && ptr in live
      modifies this
      ensures Ready() && live == old(live) - {ptr}
      ensures forall z :: z in old(zones) && z in old(used) && old(zones)[z].magic && ptr in old(used)[z] ==>
                Gives(old(zones), zones, old(zoneArray), zoneArray, z, ptr)
    {
      hide Book, UsageOk, ClassLists, FreeZones, PagesOk, OneIdle, Gives;
      OnlyZone(mem, owner, held, zones, used, live, zp, ptr);
      PageMapFindsOwner(mem, owner, held, zones, used, live, zp, ptr);
      var page := ptr / PAGE;
      var kup := mem[page];
      if kup.kind == LargePage {
        assert kup == Usage(LargePage, held[InLarge(page)]);
        FreeLarge(page);
      } else {
        var z := page - kup.size;
        UsedKeys(owner, held, zones, used, live, zp);
        FreeChunk(z, ptr);
      }
    }

    // The size rt_realloc works with: for a block out of a zone, that of the class of the request
    ghost function Adjusted(ptr: nat, size: nat): nat
      reads this
    {
      if ptr / PAGE < |mem| && mem[ptr / PAGE].kind == SmallPage && 0 < size < 16384 then ZoneIndex(size).1 else size
    }

    // The block came out of a zone of just that chunk size
    ghost predicate SameChunk(ptr: nat, size: nat)
      requires ptr in live
      reads this
    {
      ptr / PAGE < |mem| && mem[ptr / PAGE].kind == SmallPage && live[ptr] == Adjusted(ptr, size)
    }

    /** rt_realloc: a chunk of the right class stays, everything else, and every large block, is allocated anew. */
    method Realloc(ptr: Option<nat>, size: nat) returns (r: Option<nat>)
      requires Ready() && (ptr.Some? ==> ptr.value in live)
      modifies this
      ensures Ready()
      ensures ptr.Some? && size == 0 ==> r == None && live == old(live) - {ptr.value}
      ensures r.None? && size > 0 ==> live == old(live)
      ensures ptr.Some? && size > 0 ==> (r == ptr <==> old(SameChunk(ptr.value, size)))
      ensures ptr.Some? && size > 0 ==>
        (r.None? <==> old(!SameChunk(ptr.value, size) && NoMemory(Adjusted(ptr.value, size))))
      ensures ptr.None? && size > 0 ==> (r.None? <==> old(NoMemory(size)))
      ensures r.Some? && r == ptr ==> live == old(live) && size <= live[ptr.value]
      ensures r.Some? && r != ptr ==>
        && r.value !in old(live) && r.value in live && size <= live[r.value]
        && live == (if ptr.Some? then old(live) - {ptr.value} else old(live))[r.value := live[r.value]]
    {
      hide Book, UsageOk, ClassLists, FreeZones, PagesOk, OneIdle, NoMemory, ZoneIndex;
      if ptr == None {
        r := Malloc(size);
        return;
      }
      if size == 0 {
        Free(ptr.value);
        return None;
      }
      PageMapFindsOwner(mem, owner, held, zones, used, live, zp, ptr.value);
      var page := ptr.value / PAGE;
      var kup := mem[page];
      var newSize := size;
      if kup.kind == SmallPage {
        if size < 16384 {
          ZoneIndexSound(size);
          newSize := ZoneIndex(size).1;
        }
        if zones[page - kup.size].chunkSize == newSize {
          return ptr;
        }
      }
      r := Move(ptr.value, newSize);
    }

    // Allocate anew, copy, free
    method Move(ptr: nat, size: nat) returns (r: Option<nat>)
      requires Ready() && ptr in live && size > 0
      modifies this
      ensures Ready()
      ensures r.None? ==> live == old(live)
      ensures r.None? <==> old(NoMemory(size))
      ensures r.Some? ==> r.value !in old(live) && r.value != ptr && r.value in live && size <= live[r.value]
      ensures r.Some? ==> live == (old(live) - {ptr})[r.value := live[r.value]]
    {
      ReadyZp();
      hide Ready, Valid, NoMemory;
      ghost var before := live;
      r := Malloc(size);
      if r.Some? {
        MoveKey(before, ptr, r.value, live[r.value]);
        Free(ptr);
      }
    }
  }

  // Before anything is allocated all pages but the page map are free
  lemma FirstPages(np: nat, k: nat)
    requires 0 < k <= np
    ensures var l := FreeList([], 0, np);
            && Canonical(l)
            && AllocList(l, k).1 == (if k == np then [] else [Run(k, np - k)])
            && PagesOk(AllocList(l, k).1, seq(np, p => if 0 <= p < k then Reserved else Nobody))
  {
    var l := FreeList([], 0, np);
    assert l == [Run(0, np)] && l[1..] == [];
    var l' := AllocList(l, k).1;
    if k < np {
      assert l' == [Run(k, np - k)] && l'[1..] == [];
      forall p: int ensures Has(l', p) <==> k <= p < np {
        assert Has(l', p) <==> l'[0].Has(p);
      }
    } else {
      assert l' == [];
    }
  }

  lemma EmptyHeap(owner: seq<Owner>, mem: seq<Usage>, za: seq<seq<nat>>, zp: nat, np: nat)
    requires |owner| == |mem| == np && zp > 0
    requires forall p :: 0 <= p < np ==> owner[p] == Nobody || owner[p] == Reserved
    requires za == seq(NZONES, _ => [])
    ensures UsageOk(mem, owner, map[]) && Book(owner, map[], map[], map[], map[], zp)
    ensures ClassLists(za, map[]) && FreeZones([], {}, map[]) && OneIdle(map[])
  {
  }

  lemma BookOwners(owner: seq<Owner>, held: map<Owner, nat>, zones: map<nat, Zone>,
                   used: map<nat, set<nat>>, live: map<nat, nat>, zp: nat)
    requires Book(owner, held, zones, used, live, zp)
    ensures OwnersOk(owner, held) && zp > 0
  {
  }

  lemma MoveKey(m: map<nat, nat>, p: nat, q: nat, u: nat)
    requires p in m && q !in m
    ensures m[q := u] - {p} == (m - {p})[q := u]
  {
  }

  lemma UsedKeys(owner: seq<Owner>, held: map<Owner, nat>, zones: map<nat, Zone>,
                 used: map<nat, set<nat>>, live: map<nat, nat>, zp: nat)
    requires Book(owner, held, zones, used, live, zp)
    ensures used.Keys == zones.Keys
  {
  }

  lemma ZoneFacts(owner: seq<Owner>, held: map<Owner, nat>, zones: map<nat, Zone>,
                  used: map<nat, set<nat>>, live: map<nat, nat>, zp: nat, z: nat)
    requires Book(owner, held, zones, used, live, zp) && z in zones && zones[z].magic
    ensures z in used && ZoneOk(z, zones[z], used[z], zp) && zones[z].zi < NZONES
    ensures zones[z].nfree == zones[z].nmax - |used[z]|
    ensures zones[z].nfree == zones[z].nmax <==> used[z] == {}
  {
    FreeCount(z, zones[z], used[z], zp);
  }

  lemma DropLargeSize(owner: seq<Owner>, held: map<Owner, nat>, zones: map<nat, Zone>,
                      used: map<nat, set<nat>>, live: map<nat, nat>, zp: nat, b: nat)
    requires Book(owner, held, zones, used, live, zp) && InLarge(b) in held
    ensures b * PAGE in live && live[b * PAGE] == held[InLarge(b)] * PAGE && held[InLarge(b)] > 0
  {
    PageOf(b);
    assert Owns(owner, b, held[InLarge(b)], InLarge(b)) && owner[b] == InLarge(b);
    assert b * PAGE in live by { assert InLarge(b).first * PAGE in live; }
    assert LiveAt(b * PAGE, live[b * PAGE], owner, zones, used, held);
  }

  lemma DropChunkSize(owner: seq<Owner>, held: map<Owner, nat>, zones: map<nat, Zone>,
                      used: map<nat, set<nat>>, live: map<nat, nat>, zp: nat, z: nat, a: nat)
    requires Book(owner, held, zones, used, live, zp) && z in zones && z in used && a in used[z]
    ensures a in live && live[a] == zones[z].chunkSize
  {
    assert ZoneLive(live, owner, z, used[z]);
    assert LiveAt(a, live[a], owner, zones, used, held);
  }

  lemma StaysOneIdle(za: seq<seq<nat>>, zones: map<nat, Zone>, z: nat, n': Zone,
                     owner: seq<Owner>, held: map<Owner, nat>, used: map<nat, set<nat>>,
                     live: map<nat, nat>, zp: nat)
    requires OneIdle(zones) && z in zones && Book(owner, held, zones[z := n'], used, live, zp)
    requires ClassLists(za, zones[z := n']) && n'.magic && n'.zi < NZONES
    requires n'.nfree == n'.nmax ==> za[n'.zi] == [z]
    ensures OneIdle(zones[z := n'])
  {
    var zones' := zones[z := n'];
    forall x | x in zones' && Idle(zones'[x]) ensures zones'[x].nfree > 0 {
      assert ZoneOk(x, zones'[x], used[x], zp);
    }
    if Idle(n') {
      assert ZoneOk(z, zones'[z], used[z], zp);
      forall x | x in zones && x != z && Idle(zones[x]) ensures zones[x].nfree > 0 {
        assert zones'[x] == zones[x];
      }
      OneIdleAlone(za, zones, z, n');
    } else {
      OneIdleBusy(zones, z, n');
    }
  }

  lemma SpareEmpty(owner: seq<Owner>, held: map<Owner, nat>, zones: map<nat, Zone>,
                   used: map<nat, set<nat>>, live: map<nat, nat>, zp: nat, z: nat)
    requires Book(owner, held, zones, used, live, zp) && z in zones && !zones[z].magic
    ensures z in used && used[z] == {}
  {
    assert ZoneOk(z, zones[z], used[z], zp);
  }

  // The first zone on a class list, and the list without it once it is full
  lemma ListedZone(za: seq<seq<nat>>, zones: map<nat, Zone>, used: map<nat, set<nat>>,
                   held: map<Owner, nat>, owner: seq<Owner>, live: map<nat, nat>, zp: nat, zi: nat)
    requires ClassLists(za, zones) && Book(owner, held, zones, used, live, zp)
    requires zi < |za| == NZONES && za[zi] != []
    ensures var z := za[zi][0];
            && z in zones && z in used && zones[z].magic && zones[z].nfree > 0
            && zones[z].zi == zi && zones[z].chunkSize == ChunkSize(zi)
            && ZoneOk(z, zones[z], used[z], zp)
  {
    var z := za[zi][0];
    assert ClassList(za[zi], zi, zones) && z in za[zi];
  }

  lemma PagesKept(l: seq<Run>, n: nat)
    requires Canonical(l) && n > 0
    ensures AllocList(l, n).0.None? <==> NoRun(l, n)
    ensures AllocList(l, n).0.None? ==> AllocList(l, n).1 == l
  {
    AllocFits(l, n);
    if AllocList(l, n).0.None? {
      forall a: nat ensures Blocked(l, a, n) {
        AllocLowest(l, n, a);
      }
    } else {
      assert !Blocked(l, AllocList(l, n).0.value, n);
    }
  }
}
