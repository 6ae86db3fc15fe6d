/** Size classes and zone geometry of rt-thread/src/slab.c:112-201, 374-381, 401-459, 625-648. */
module SlabSizes {
  import opened Bitwise

  const PAGE: nat := 4096          // RT_MM_PAGE_SIZE
  const NZONES: nat := 72
  const HEADER: nat := 56          // sizeof(struct slab_zone) on a 64-bit target
  const MIN_CHUNK: nat := 8
  const ZALLOC_ZONE_LIMIT: nat := 16384

  lemma DivBounds(x: nat, a: nat)
    requires a > 0
    ensures x / a * a <= x < x / a * a + a
  {
  }

  lemma MulAtLeast(d: nat, a: nat)
    requires d > 0
    ensures d * a >= a
  {
  }

  lemma MulMono(i: nat, j: nat, a: nat)
    requires i <= j
    ensures i * a <= j * a
  {
    assert j * a == i * a + (j - i) * a;
  }

  lemma DivUnique(x: nat, a: nat, q: nat, r: nat)
    requires a > 0 && r < a && x == q * a + r
    ensures x / a == q && x % a == r
  {
    var q' := x / a;
    DivBounds(x, a);
    if q' < q {
      assert (q - q') * a == q * a - q' * a;
      MulAtLeast(q - q', a);
    } else if q' > q {
      assert (q' - q) * a == q' * a - q * a;
      MulAtLeast(q' - q, a);
    }
  }

  lemma MulMod(k: nat, a: nat)
    requires a > 0
    ensures (k * a) % a == 0 && (k * a) / a == k
  {
    DivUnique(k * a, a, k, 0);
  }

  // RT_ALIGN(n, a) for a power of two a
  function AlignUp(n: nat, a: nat): (r: nat)
    requires a > 0
    ensures n <= r < n + a && r % a == 0
  {
    DivBounds(n + a - 1, a);
    MulMod((n + a - 1) / a, a);
    (n + a - 1) / a * a
  }

  lemma Rounded(n: nat, a: nat)
    requires a > 0
    ensures var c := (n + a - 1) / a * a;
            n <= c < n + a && c % a == 0 && c / a == (n + a - 1) / a
  {
    DivBounds(n + a - 1, a);
    MulMod((n + a - 1) / a, a);
  }

  // zoneindex(): the index of the size class and the chunk size the request is rounded up to
  function ZoneIndex(n: nat): (r: (nat, nat))
    requires 0 < n < 16384
  {
    if n < 128 then var c := (n + 7) / 8 * 8; (c / 8 - 1, c)
    else if n < 256 then var c := (n + 15) / 16 * 16; (c / 16 + 7, c)
    else if n < 8192 then
      if n < 512 then var c := (n + 31) / 32 * 32; (c / 32 + 15, c)
      else if n < 1024 then var c := (n + 63) / 64 * 64; (c / 64 + 23, c)
      else if n < 2048 then var c := (n + 127) / 128 * 128; (c / 128 + 31, c)
      else if n < 4096 then var c := (n + 255) / 256 * 256; (c / 256 + 39, c)
      else var c := (n + 511) / 512 * 512; (c / 512 + 47, c)
    else var c := (n + 1023) / 1024 * 1024; (c / 1024 + 55, c)
  }

  // The chunk size of class zi, read off the table in the comment of slab.c:119-130
  function ChunkSize(zi: nat): nat {
    if zi < 16 then (zi + 1) * 8
    else if zi < 24 then (zi - 7) * 16
    else if zi < 32 then (zi - 15) * 32
    else if zi < 40 then (zi - 23) * 64
    else if zi < 48 then (zi - 31) * 128
    else if zi < 56 then (zi - 39) * 256
    else if zi < 64 then (zi - 47) * 512
    else (zi - 55) * 1024
  }

  /** Every request below 16384 bytes gets a class below NZONES whose chunk holds it; the class
      determines the chunk size and the chunk size the class. */
  lemma ZoneIndexSound(n: nat)
    requires 0 < n < 16384
    ensures ZoneIndex(n).0 < NZONES && ZoneIndex(n).1 == ChunkSize(ZoneIndex(n).0)
    ensures n <= ZoneIndex(n).1 <= 16384
  {
    ZoneIndexBounds(n);
    if n < 128 {
      Rounded(n, 8);
    } else if n < 256 {
      Rounded(n, 16);
    } else if n < 512 {
      Rounded(n, 32);
    } else if n < 1024 {
      Rounded(n, 64);
    } else if n < 2048 {
      Rounded(n, 128);
    } else if n < 4096 {
      Rounded(n, 256);
    } else if n < 8192 {
      Rounded(n, 512);
    } else {
      Rounded(n, 1024);
    }
  }

  lemma ZoneIndexBounds(n: nat)
    requires 0 < n < 16384
    ensures n <= ZoneIndex(n).1 <= 16384
  {
  }

  lemma ChunkSizeAligned(zi: nat)
    ensures ChunkSize(zi) % MIN_CHUNK == 0
    ensures zi < NZONES ==> 0 < ChunkSize(zi) <= 16384
  {
    var k := if zi < 16 then zi + 1 else if zi < 24 then 2 * (zi - 7) else if zi < 32 then 4 * (zi - 15)
             else if zi < 40 then 8 * (zi - 23) else if zi < 48 then 16 * (zi - 31)
             else if zi < 56 then 32 * (zi - 39) else if zi < 64 then 64 * (zi - 47) else 128 * (zi - 55);
    assert ChunkSize(zi) == k * 8;
    MulMod(k, 8);
  }

  /** Rounding wastes less than an eighth of a chunk from 128 bytes on, and under 8 bytes below. */
  lemma ZoneIndexWaste(n: nat)
    requires 0 < n < 16384
    ensures n < 128 ==> ZoneIndex(n).1 - n < 8
    ensures n >= 128 ==> 8 * (ZoneIndex(n).1 - n) < ZoneIndex(n).1
  {
  }

  lemma ChunkSizeMonotone(i: nat, j: nat)
    requires i < j < NZONES
    ensures ChunkSize(i) < ChunkSize(j)
  {
  }

  /** The class of a request is the least one whose chunks hold it. */
  lemma ZoneIndexTightest(n: nat, zi: nat)
    requires 0 < n < 16384 && zi < NZONES && n <= ChunkSize(zi)
    ensures ZoneIndex(n).0 <= zi
  {
    ZoneIndexSound(n);
    var k := ZoneIndex(n).0;
    if zi < k {
      if zi < k - 1 {
        ChunkSizeMonotone(zi, k - 1);
      }
      ZoneIndexNotPrev(n);
    }
  }

  lemma ZoneIndexNotPrev(n: nat)
    requires 0 < n < 16384 && ZoneIndex(n).0 > 0
    ensures ChunkSize(ZoneIndex(n).0 - 1) < n
  {
  }

  // ---- zone geometry ----

  predicate PowerOfTwo(n: nat) {
    n == 1 || (n > 0 && n % 2 == 0 && PowerOfTwo(n / 2))
  }

  // The test for a power of two in slab_malloc, in words of the machine
  predicate BitTest(size: nat)
    requires size > 0
  {
    Or(size, size - 1) + 1 == 2 * size
  }

  /** The bit test of slab.c:635 recognises exactly the powers of two. */
  lemma {:induction false} PowerOfTwoTest(size: nat)
    requires size > 0
    ensures BitTest(size) <==> PowerOfTwo(size)
  {
    if size > 1 {
      OrHalf(size, size - 1);
      if size % 2 == 0 {
        assert (size - 1) / 2 == size / 2 - 1;
        PowerOfTwoTest(size / 2);
      } else {
        assert (size - 1) / 2 == size / 2;
        OrSelf(size / 2);
      }
    }
  }

  // Where the chunk array starts inside a zone
  function Offset(size: nat): nat
    requires size > 0
  {
    if PowerOfTwo(size) then AlignUp(HEADER, size) else AlignUp(HEADER, MIN_CHUNK)
  }

  function NMax(zoneSize: nat, size: nat): nat
    requires size > 0
  {
    if zoneSize < Offset(size) then 0 else (zoneSize - Offset(size)) / size
  }

  predicate ZonePagesOk(zp: nat) {
    zp == 8 || zp == 16 || zp == 32
  }

  function ZoneLimit(zp: nat): nat {
    if zp * PAGE / 4 > ZALLOC_ZONE_LIMIT then ZALLOC_ZONE_LIMIT else zp * PAGE / 4
  }

  lemma ChunkUnderLimit(zp: nat, n: nat)
    requires ZonePagesOk(zp) && 0 < n < ZoneLimit(zp)
    ensures ZoneIndex(n).1 <= ZoneLimit(zp)
  {
  }

  lemma OffsetBound(size: nat)
    requires size > 0 && size % MIN_CHUNK == 0
    ensures HEADER <= Offset(size) && Offset(size) % MIN_CHUNK == 0
    ensures Offset(size) <= (if size < 64 then 64 else size)
    ensures PowerOfTwo(size) ==> Offset(size) % size == 0
  {
    if PowerOfTwo(size) {
      if size >= 64 {
        DivUnique(HEADER + size - 1, size, 1, HEADER - 1);
      } else {
        assert size == 8 || size == 16 || size == 24 || size == 32 || size == 40 || size == 48 || size == 56;
      }
    }
  }

  lemma DivAtLeast(x: nat, a: nat, k: nat)
    requires a > 0 && x >= k * a
    ensures x / a >= k
  {
    DivBounds(x, a);
    if x / a < k {
      assert k * a == x / a * a + (k - x / a) * a;
      MulAtLeast(k - x / a, a);
    }
  }

  /** Every zone has room for at least three chunks. */
  lemma AtLeastThree(zp: nat, n: nat)
    requires ZonePagesOk(zp) && 0 < n < ZoneLimit(zp)
    ensures NMax(zp * PAGE, ZoneIndex(n).1) >= 3
  {
    ChunkUnderLimit(zp, n);
    ZoneIndexSound(n);
    ChunkSizeAligned(ZoneIndex(n).0);
    var c := ZoneIndex(n).1;
    OffsetBound(c);
    var room := zp * PAGE - Offset(c);
    assert room >= 3 * c;
    DivAtLeast(room, c, 3);
  }

  /** Chunks lie inside their zone, behind the header. */
  lemma ChunkInZone(zoneSize: nat, size: nat, k: nat)
    requires size > 0 && k < NMax(zoneSize, size)
    ensures Offset(size) + k * size + size <= zoneSize
  {
    var room := zoneSize - Offset(size);
    var n := room / size;
    DivBounds(room, size);
    MulMono(k + 1, n, size);
    assert (k + 1) * size == k * size + size;
  }

  lemma ChunksDisjoint(size: nat, i: nat, j: nat)
    requires i < j
    ensures i * size + size <= j * size
  {
    assert j * size == i * size + (j - i) * size;
    MulAtLeast(j - i, size);
  }

  function ChunkAddr(zone: nat, size: nat, k: nat): nat
    requires size > 0
  {
    zone * PAGE + Offset(size) + k * size
  }

  lemma DivisibleSum(a: nat, b: nat, n: nat)
    requires n > 0 && a % n == 0 && b % n == 0
    ensures (a + b) % n == 0
  {
    DivBounds(a, n);
    DivBounds(b, n);
    assert a + b == (a / n + b / n) * n;
    MulMod(a / n + b / n, n);
  }

  lemma DivisibleProduct(z: nat, p: nat, n: nat)
    requires n > 0 && p % n == 0
    ensures (z * p) % n == 0
  {
    DivBounds(p, n);
    assert z * p == z * (p / n) * n;
    MulMod(z * (p / n), n);
  }

  lemma ChunkAligned(zone: nat, size: nat, k: nat)
    requires PowerOfTwo(size) && size % MIN_CHUNK == 0 && size <= PAGE
    ensures ChunkAddr(zone, size, k) % size == 0
  {
    hide PowerOfTwo, Offset;
    SizeDivides(size);
    DivisibleProduct(zone, PAGE, size);
    MulMod(k, size);
    DivisibleSums(zone * PAGE, Offset(size), k * size, size);
  }

  lemma SizeDivides(size: nat)
    requires PowerOfTwo(size) && size % MIN_CHUNK == 0 && size <= PAGE
    ensures size > 0 && PAGE % size == 0 && Offset(size) % size == 0
  {
    OffsetBound(size);
    PowerDivides(size, PAGE);
  }

  lemma DivisibleSums(a: nat, b: nat, c: nat, n: nat)
    requires n > 0 && a % n == 0 && b % n == 0 && c % n == 0
    ensures (a + b + c) % n == 0
  {
    DivisibleSum(a, b, n);
    DivisibleSum(a + b, c, n);
  }

  ghost predicate AlwaysAligned(size: nat)
    requires size > 0
  {
    forall zone: nat, k: nat :: ChunkAddr(zone, size, k) % size == 0
  }

  /** Are power-of-two sizes aligned to their size, as slab.c:137-138 promises? Zones are only
      page aligned, so it holds for every zone exactly when the size is at most one page. */
  lemma PowerOfTwoAlignment(size: nat)
    requires PowerOfTwo(size) && size % MIN_CHUNK == 0
    ensures AlwaysAligned(size) <==> size <= PAGE
  {
    if size <= PAGE {
      forall zone: nat, k: nat ensures ChunkAddr(zone, size, k) % size == 0 {
        ChunkAligned(zone, size, k);
      }
    } else {
      OffsetBound(size);
      DivBounds(Offset(size), size);
      DivUnique(ChunkAddr(1, size, 0), size, Offset(size) / size, PAGE);
    }
  }

  lemma {:induction false} PowerDivides(size: nat, big: nat)
    requires PowerOfTwo(size) && PowerOfTwo(big) && size <= big
    ensures big % size == 0
  {
    if size == 1 {
    } else if size == big {
    } else {
      PowerDivides(size / 2, big / 2);
      var k := big / 2 / (size / 2);
      assert big / 2 == k * (size / 2) by {
        DivBounds(big / 2, size / 2);
      }
      assert big == k * size;
      MulMod(k, size);
    }
  }
}
