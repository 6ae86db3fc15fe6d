/** Ready groups: one bit for each priority, and __rt_ffs (rt-thread/src/kservice.c:1282-1330). */
module Bits {

  const PRIORITIES: nat := 32    // RT_THREAD_PRIORITY_MAX

  // 1 << priority
  function Mask(p: nat): bv32
    requires p < PRIORITIES
  {
    1 << p
  }

  function With(g: bv32, m: bv32): bv32 { g | m }
  function Less(g: bv32, m: bv32): bv32 { g & !m }
  predicate Has(g: bv32, m: bv32) { g & m != 0 }

  predicate Bit(g: bv32, p: nat)
    requires p < PRIORITIES
  {
    Has(g, Mask(p))
  }

  lemma MaskNotZero(p: nat)
    requires p < PRIORITIES
    ensures Mask(p) != 0
  {
  }

  lemma MasksApart(p: nat, q: nat)
    requires p < PRIORITIES && q < PRIORITIES && p != q
    ensures !Has(Mask(p), Mask(q))
  {
  }

  lemma WithLess(g: bv32, m: bv32, n: bv32)
    ensures !Has(m, n) ==> Has(With(g, m), n) == Has(g, n) && Has(Less(g, m), n) == Has(g, n)
    ensures m != 0 ==> Has(With(g, m), m)
    ensures !Has(Less(g, m), m)
  {
  }

  /** Setting and clearing the bit of one priority leaves the others. */
  lemma SetClear(g: bv32, p: nat, q: nat)
    requires p < PRIORITIES && q < PRIORITIES
    ensures Bit(With(g, Mask(p)), q) <==> p == q || Bit(g, q)
    ensures Bit(Less(g, Mask(p)), q) <==> p != q && Bit(g, q)
  {
    hide Mask, With, Less, Has;
    WithLess(g, Mask(p), Mask(q));
    if p == q {
      MaskNotZero(p);
    } else {
      MasksApart(p, q);
    }
  }

  lemma NoBits(p: nat)
    requires p < PRIORITIES
    ensures !Bit(0, p)
  {
  }

  // __lowest_bit_bitmap, sixteen entries to a row: the rows differ in their first entry only
  function Bitmap(b: bv32): nat
    requires b < 256
  {
    var low := b & 15;
    if low == 0 then First(b >> 4) else Row(low)
  }

  function First(i: bv32): nat {
    if i == 0 then 0
    else if i == 1 || i == 3 || i == 5 || i == 7 || i == 9 || i == 11 || i == 13 || i == 15 then 4
    else if i == 2 || i == 6 || i == 10 || i == 14 then 5
    else if i == 4 || i == 12 then 6
    else 7
  }

  function Row(j: bv32): nat {
    if j == 1 || j == 3 || j == 5 || j == 7 || j == 9 || j == 11 || j == 13 || j == 15 then 0
    else if j == 2 || j == 6 || j == 10 || j == 14 then 1
    else if j == 4 || j == 12 then 2
    else 3
  }

  function Ffs(value: bv32): nat {
    if value == 0 then 0
    else if value & 0xff != 0 then Bitmap(value & 0xff) + 1
    else if value & 0xff00 != 0 then Bitmap((value & 0xff00) >> 8) + 9
    else if value & 0xff0000 != 0 then Bitmap((value & 0xff0000) >> 16) + 17
    else Bitmap((value & 0xff000000) >> 24) + 25
  }

  // Bit k is the lowest one of g, with m == 1 << k
  predicate Lowest(g: bv32, m: bv32) {
    g & m != 0 && g & (m - 1) == 0
  }

  lemma BitmapLowest(b: bv32)
    requires 0 < b < 256
    ensures Bitmap(b) < 8 && Lowest(b, 1 << Bitmap(b))
  {
  }

  lemma ByteOne(g: bv32, m: bv32)
    requires g & 0xff != 0 && Lowest(g & 0xff, m) && m <= 128
    ensures Lowest(g, m)
  {
  }

  lemma ByteTwo(g: bv32, m: bv32)
    requires g & 0xff == 0 && Lowest((g & 0xff00) >> 8, m) && m <= 128
    ensures Lowest(g, m << 8)
  {
  }

  lemma ByteThree(g: bv32, m: bv32)
    requires g & 0xffff == 0 && Lowest((g & 0xff0000) >> 16, m) && m <= 128
    ensures Lowest(g, m << 16)
  {
  }

  lemma ByteFour(g: bv32, m: bv32)
    requires g & 0xffffff == 0 && Lowest((g & 0xff000000) >> 24, m) && m <= 128
    ensures Lowest(g, m << 24)
  {
  }

  lemma Shifts(k: nat)
    requires k < 8
    ensures Mask(k) <= 128
    ensures Mask(k + 8) == Mask(k) << 8 && Mask(k + 16) == Mask(k) << 16 && Mask(k + 24) == Mask(k) << 24
  {
  }

  lemma Below(q: nat, k: nat)
    requires q < k < PRIORITIES
    ensures Mask(q) & (Mask(k) - 1) == Mask(q)
  {
  }

  lemma LowestNot(g: bv32, m: bv32, n: bv32)
    requires Lowest(g, m) && n & (m - 1) == n
    ensures !Has(g, n)
  {
  }

  lemma LowestBit(g: bv32, k: nat)
    requires k < PRIORITIES && Lowest(g, Mask(k))
    ensures Bit(g, k) && forall q :: 0 <= q < k ==> !Bit(g, q)
  {
    assert Has(g, Mask(k));
    hide Mask, Has, Lowest;
    forall q | 0 <= q < k
      ensures !Bit(g, q)
    {
      Below(q, k);
      LowestNot(g, Mask(k), Mask(q));
    }
  }

  lemma FfsBytes(g: bv32)
    requires g != 0
    ensures 1 <= Ffs(g) <= 32 && Lowest(g, Mask(Ffs(g) - 1))
  {
    hide Lowest, Mask, Bitmap;
    if g & 0xff != 0 {
      FfsByte(g & 0xff);
      ByteOne(g, Mask(Bitmap(g & 0xff)));
    } else if g & 0xff00 != 0 {
      FfsByte((g & 0xff00) >> 8);
      ByteTwo(g, Mask(Bitmap((g & 0xff00) >> 8)));
    } else if g & 0xff0000 != 0 {
      FfsByte((g & 0xff0000) >> 16);
      ByteThree(g, Mask(Bitmap((g & 0xff0000) >> 16)));
    } else {
      FfsByte((g & 0xff000000) >> 24);
      ByteFour(g, Mask(Bitmap((g & 0xff000000) >> 24)));
    }
  }

  lemma FfsByte(b: bv32)
    requires 0 < b < 256
    ensures Bitmap(b) < 8 && Lowest(b, Mask(Bitmap(b))) && Mask(Bitmap(b)) <= 128
    ensures Mask(Bitmap(b) + 8) == Mask(Bitmap(b)) << 8 && Mask(Bitmap(b) + 16) == Mask(Bitmap(b)) << 16
    ensures Mask(Bitmap(b) + 24) == Mask(Bitmap(b)) << 24
  {
    hide Lowest, Bitmap;
    BitmapLowest(b);
    Shifts(Bitmap(b));
  }

  /** __rt_ffs finds the lowest set bit, counted from 1; 0 means there is none. */
  lemma FfsLowest(g: bv32)
    ensures Ffs(g) == 0 <==> g == 0
    ensures g != 0 ==> Ffs(g) - 1 < PRIORITIES && Bit(g, Ffs(g) - 1) && forall q :: 0 <= q < Ffs(g) - 1 ==> !Bit(g, q)
  {
    hide Lowest, Mask, Bitmap, Has;
    if g != 0 {
      FfsBytes(g);
      LowestBit(g, Ffs(g) - 1);
    }
  }
}
