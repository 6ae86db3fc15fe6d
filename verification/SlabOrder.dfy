/** The order in which the chunks of a zone are handed out (rt-thread/src/slab.c:537-571, 625-655, 826-832), and the
    exact geometry of a zone. */
module SlabOrder {
  import opened SlabRep
  import opened SlabSizes

  // The zone after k allocations, and the chunks they gave
  function Allocs(n: Zone, k: nat): (r: (seq<nat>, Zone))
    requires n.magic && n.nfree >= k && n.uindex < n.nmax && n.nfree == (n.nmax - 1 - n.uindex) + |n.freeChunks|
    ensures |r.0| == k && r.1.nfree == n.nfree - k
    decreases k
  {
    if k == 0 then ([], n)
    else
      var (a, n') := TakeChunk(n);
      var (got, n'') := Allocs(n', k - 1);
      ([a] + got, n'')
  }

  /** A zone hands out the chunks it has never used in the order of their addresses, whatever is free; */
  lemma {:induction false} NeverUsedFirst(n: Zone, k: nat, i: nat)
    requires n.magic && n.uindex + k < n.nmax && n.nfree == (n.nmax - 1 - n.uindex) + |n.freeChunks| && i < k
    ensures Allocs(n, k).0[i] == n.base + (n.uindex + 1 + i) * n.chunkSize
    ensures Allocs(n, k).1 == n.(nfree := n.nfree - k, uindex := n.uindex + k)
    decreases k
  {
    var (a, n') := TakeChunk(n);
    if i > 0 {
      NeverUsedFirst(n', k - 1, i - 1);
      assert Allocs(n, k).0[i] == Allocs(n', k - 1).0[i - 1];
    } else if k > 1 {
      NeverUsedFirst(n', k - 1, 0);
    }
  }

  /** and then the freed ones, the last one freed first. */
  lemma {:induction false} LastFreedFirst(n: Zone, k: nat)
    requires n.magic && n.nmax > 0 && n.uindex + 1 == n.nmax && n.nfree == |n.freeChunks| && k <= n.nfree
    ensures Allocs(n, k).0 == n.freeChunks[..k]
    ensures Allocs(n, k).1 == n.(nfree := n.nfree - k, freeChunks := n.freeChunks[k..])
    decreases k
  {
    if k > 0 {
      var (a, n') := TakeChunk(n);
      LastFreedFirst(n', k - 1);
      assert n.freeChunks[..k] == [a] + n'.freeChunks[..k - 1];
      assert n'.freeChunks[k - 1..] == n.freeChunks[k..];
    }
  }

  /** The first chunk of a new zone lies behind the header, and the next ones follow it. */
  lemma FreshRun(z: nat, zi: nat, zp: nat, k: nat, i: nat)
    requires ChunkSize(zi) > 0 && i < k < NMax(zp * PAGE, ChunkSize(zi))
    ensures var n := FreshZone(z, zi, zp);
            && n.magic && n.freeChunks == [] && n.nfree == n.nmax - 1 && n.uindex == 0
            && n.base == z * PAGE + Offset(ChunkSize(zi))
            && Allocs(n, k).0[i] == ChunkAddr(z, ChunkSize(zi), i + 1)
  {
    hide Offset, NMax, ChunkSize;
    NeverUsedFirst(FreshZone(z, zi, zp), k, i);
  }

  /** Two allocations, the free of the first one, and an allocation: while the zone has chunks that were never used,
      that is the one behind the second; */
  lemma FreeThenNew(n: Zone)
    requires n.magic && n.uindex + 3 < n.nmax && n.nfree == (n.nmax - 1 - n.uindex) + |n.freeChunks|
    ensures var (got, n2) := Allocs(n, 2);
            var (c, n4) := Allocs(GiveChunk(n2, got[0]), 1);
            && got[0] == n.base + (n.uindex + 1) * n.chunkSize
            && got[1] == n.base + (n.uindex + 2) * n.chunkSize
            && c[0] == n.base + (n.uindex + 3) * n.chunkSize
            && n4.freeChunks == [got[0]] + n.freeChunks
  {
    hide Allocs, TakeChunk;
    NeverUsedFirst(n, 2, 0);
    NeverUsedFirst(n, 2, 1);
    var (got, n2) := Allocs(n, 2);
    NeverUsedFirst(GiveChunk(n2, got[0]), 1, 0);
  }

  /** once it has none, it is the one just freed. */
  lemma FreeThenReuse(n: Zone, a: nat)
    requires n.magic && n.nmax > 0 && n.uindex + 1 == n.nmax && n.nfree == |n.freeChunks|
    ensures Allocs(GiveChunk(n, a), 1) == ([a], n)
  {
    hide Allocs, TakeChunk;
    LastFreedFirst(GiveChunk(n, a), 1);
  }

  lemma OneMore(i: nat, c: nat)
    ensures (i + 1) * c == i * c + c
  {
  }

  // ---- geometry ----

  /** Blocks from a quarter of a zone on, or from 16384 bytes on, are large. */
  lemma LimitOf(zp: nat)
    requires ZonePagesOk(zp)
    ensures zp == 8 ==> ZoneLimit(zp) == 8192
    ensures zp > 8 ==> ZoneLimit(zp) == 16384
  {
  }

  /** Chunks start at the first multiple behind the header: of their size if that is a power of two, else of 8. */
  lemma OffsetLeast(size: nat, m: nat)
    requires size > 0
    ensures PowerOfTwo(size) ==> Offset(size) % size == 0 && HEADER <= Offset(size) < HEADER + size
    ensures PowerOfTwo(size) && m % size == 0 && m >= HEADER ==> Offset(size) <= m
    ensures !PowerOfTwo(size) ==> Offset(size) == 56
  {
    if PowerOfTwo(size) && m % size == 0 && HEADER <= m < Offset(size) {
      LeastMultiple(Offset(size), m, size);
    }
  }

  // Two multiples of a are equal or a apart
  lemma LeastMultiple(x: nat, y: nat, a: nat)
    requires a > 0 && x % a == 0 && y % a == 0 && y < x
    ensures y + a <= x
  {
    DivBounds(x, a);
    DivBounds(y, a);
    if x / a <= y / a {
      MulMono(x / a, y / a, a);
    } else {
      MulMono(y / a + 1, x / a, a);
      OneMore(y / a, a);
    }
  }

  /** A zone has as many chunks as fit. */
  lemma ChunksFit(zoneSize: nat, size: nat)
    requires size > 0 && Offset(size) <= zoneSize
    ensures var n := NMax(zoneSize, size);
            Offset(size) + n * size <= zoneSize < Offset(size) + (n + 1) * size
  {
    hide Offset;
    DivBounds(zoneSize - Offset(size), size);
    OneMore(NMax(zoneSize, size), size);
  }
}
