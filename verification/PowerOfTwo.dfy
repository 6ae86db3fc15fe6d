/** pow2gt of packages/cJSON-v1.0.2/cJSON.c:123: the least power of two that is at least x, found by
    smearing the highest bit of x-1 downwards. */
module PowerOfTwo {

  import opened Bitwise

  // x has `len` bits, the highest m of which are ones
  predicate TopOnes(x: nat, len: nat, m: nat) {
    if len <= m then x == Pow2(len) - 1 else TopOnes(x / 2, len - 1, m)
  }

  function Minus(a: nat, b: nat): nat {
    if a < b then 0 else a - b
  }

  // x >> j
  function Shift(x: nat, j: nat): nat {
    if j == 0 then x else Shift(x / 2, j - 1)
  }

  lemma {:induction false} ShiftKeepsTop(x: nat, len: nat, m: nat, j: nat)
    requires TopOnes(x, len, m)
    ensures TopOnes(Shift(x, j), Minus(len, j), m)
    decreases j
  {
    if j > 0 {
      if len > 0 {
        ShiftKeepsTop(x / 2, len - 1, m, j - 1);
      } else {
        ShiftKeepsTop(0, 0, m, j - 1);
      }
    }
  }

  /** One round: if the top m bits of x are ones, so are the top 2m of x | x >> m. */
  lemma {:induction false} SmearTop(x: nat, s: nat, len: nat, m: nat)
    requires TopOnes(x, len, m) && TopOnes(s, Minus(len, m), m)
    ensures TopOnes(Or(x, s), len, 2 * m)
    decreases len
  {
    if len > m {
      SmearTop(x / 2, s / 2, len - 1, m);
      OrHalf(x, s);
      if len <= 2 * m {
        assert s == Pow2(len - m) - 1 == 2 * Pow2(len - m - 1) - 1;
        assert s / 2 == Pow2(len - m - 1) - 1;
      }
    }
  }

  lemma {:induction false} BitLength(x: nat) returns (len: nat)
    requires x > 0
    ensures len > 0 && Pow2(len - 1) <= x < Pow2(len) && TopOnes(x, len, 1)
  {
    if x == 1 {
      len := 1;
    } else {
      len := BitLength(x / 2);
      len := len + 1;
    }
  }

  lemma {:induction false} Pow2Monotone(a: nat, b: nat)
    requires a <= b
    ensures Pow2(a) <= Pow2(b)
    decreases b
  {
    if a < b {
      Pow2Monotone(a, b - 1);
    }
  }

  // x |= x >> m
  method Smear(x: nat, m: nat, ghost len: nat) returns (y: nat)
    requires TopOnes(x, len, m)
    ensures TopOnes(y, len, 2 * m)
  {
    ShiftKeepsTop(x, len, m, m);
    y := Or(x, Shift(x, m));
    SmearTop(x, Shift(x, m), len, m);
  }

  /** A power of two, not below x, and less than twice x. */
  method Pow2Gt(x: nat) returns (r: nat)
    requires 0 < x <= 0x4000_0000
    ensures x <= r < 2 * x && exists n: nat :: r == Pow2(n)
  {
    if x == 1 {
      assert Pow2(0) == 1;
      return 1;
    }
    ghost var len := BitLength(x - 1);
    hide TopOnes;
    r := Smear(x - 1, 1, len);
    r := Smear(r, 2, len);
    r := Smear(r, 4, len);
    r := Smear(r, 8, len);
    r := Smear(r, 16, len);
    AllOnes(r, x, len);
    r := r + 1;
  }

  lemma AllOnes(r: nat, x: nat, len: nat)
    requires TopOnes(r, len, 32) && len > 0 && Pow2(len - 1) < x <= 0x4000_0000
    ensures r + 1 == Pow2(len)
  {
    Pow2Of30();
    hide Pow2;
    if len - 1 > 30 {
      Pow2Monotone(30, len - 1);
      assert false;
    }
  }

  lemma Pow2Of30()
    ensures Pow2(30) == 0x4000_0000
  {
    assert Pow2(10) == 1024;
    assert Pow2(20) == 1024 * 1024;
  }
}
