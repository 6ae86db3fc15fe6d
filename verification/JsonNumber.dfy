/** The numbers of packages/cJSON-v1.0.2/cJSON.c:102-121 as numerals: which ones parse_number takes and what it reads,
    exactly and before rounding. It takes more than section 6 of RFC 8259 has: a zero in front of other digits, a minus
    alone, and an exponent without digits. */
module JsonNumber {
  import opened Utf8
  import opened JsonSpec

  // frac is [] if there is no point, else the digits behind it
  datatype Numeral = Numeral(minus: bool, digits: Bytes, frac: Bytes, exp: Exp)

  datatype Exp = NoExp | Exp(letter: Byte, sign: Bytes, digits: Bytes)

  predicate AllDigits(ds: Bytes) {
    forall i :: 0 <= i < |ds| ==> IsDigit(ds[i])
  }

  predicate ExpTaken(e: Exp) {
    e.Exp? ==> e.letter in {69, 101} && (e.sign == [] || e.sign == [43] || e.sign == [MINUS]) && AllDigits(e.digits)
  }

  // One zero may stand in front of other digits
  function Significant(ds: Bytes): Bytes {
    if ds != [] && ds[0] == ZERO then ds[1..] else ds
  }

  predicate Taken(n: Numeral) {
    && AllDigits(n.digits) && AllDigits(n.frac) && ExpTaken(n.exp) && (n.minus || n.digits != [])
    && (Significant(n.digits) != [] ==> Significant(n.digits)[0] != ZERO)
  }

  // ---- the text of a numeral, in front of `rest` ----

  function SpellFrac(frac: Bytes, rest: Bytes): Bytes {
    if frac == [] then rest else [46] + (frac + rest)
  }

  function SpellExp(e: Exp, rest: Bytes): Bytes {
    if e.NoExp? then rest else [e.letter] + (e.sign + (e.digits + rest))
  }

  function Spell(n: Numeral, rest: Bytes): Bytes {
    (if n.minus then [MINUS] else []) + (n.digits + SpellFrac(n.frac, SpellExp(n.exp, rest)))
  }

  // ---- where it ends: what follows does not continue any part of it ----

  predicate DigitsEnd(ds: Bytes, s: Bytes) {
    !IsDigit(Peek(s)) || (ds != [] && Significant(ds) == [] && Peek(s) == ZERO)
  }

  predicate FracEnds(frac: Bytes, s: Bytes) {
    if frac == [] then !(Peek(s) == 46 && IsDigit(Peek(s[1..]))) else !IsDigit(Peek(s))
  }

  predicate ExpEnds(e: Exp, rest: Bytes) {
    if e.NoExp? then Peek(rest) != 101 && Peek(rest) != 69
    else !IsDigit(Peek(rest)) && (e.sign == [] && e.digits == [] ==> Peek(rest) != 43 && Peek(rest) != MINUS)
  }

  predicate Ends(n: Numeral, rest: Bytes) {
    && ExpEnds(n.exp, rest) && FracEnds(n.frac, SpellExp(n.exp, rest))
    && DigitsEnd(n.digits, SpellFrac(n.frac, SpellExp(n.exp, rest)))
  }

  // ---- its value ----

  function Decimal(ds: Bytes): nat
    requires AllDigits(ds)
  {
    if ds == [] then 0 else 10 * Decimal(ds[..|ds| - 1]) + (ds[|ds| - 1] - ZERO)
  }

  // The digits n in front of the point, and k digits f behind it, times 10^e
  function Value(n: nat, f: nat, k: nat, e: int): real {
    (n as real + f as real * Ten(-(k as int))) * Ten(e)
  }

  function Exponent(e: Exp): int
    requires ExpTaken(e)
  {
    if e.NoExp? then 0 else if e.sign == [MINUS] then -(Decimal(e.digits) as int) else Decimal(e.digits)
  }

  function Exact(n: Numeral): real
    requires Taken(n)
  {
    var x := Value(Decimal(n.digits), Decimal(n.frac), |n.frac|, Exponent(n.exp));
    if n.minus then -x else x
  }

  // ---- digits ----

  function Pow10(k: nat): nat {
    if k == 0 then 1 else 10 * Pow10(k - 1)
  }

  // The number n followed by k digits that make f
  function Joined(n: nat, k: nat, f: nat): nat {
    n * Pow10(k) + f
  }

  lemma {:induction false} DigitsParse(n: nat, ds: Bytes, s: Bytes)
    requires AllDigits(ds)
    ensures TakeDigits(n, ds + s) == TakeDigits(Joined(n, |ds|, Decimal(ds)), s)
    decreases |ds|
  {
    if ds == [] {
      assert ds + s == s;
    } else {
      var k := |ds| - 1;
      var d := [ds[k]] + s;
      DigitsParse(n, ds[..k], d);
      assert ds + s == ds[..k] + d;
      assert d[1..] == s;
      Shift(n, Pow10(k), Decimal(ds[..k]), ds[k] - ZERO);
    }
  }

  lemma Shift(n: nat, p: nat, m: nat, d: nat)
    ensures (n * p + m) * 10 + d == n * (10 * p) + (10 * m + d)
  {
    assert n * p * 10 == n * (10 * p);
  }

  lemma DigitsStop(n: nat, s: Bytes)
    requires !IsDigit(Peek(s))
    ensures TakeDigits(n, s) == (n, s)
  {
  }

  lemma DigitsTaken(n: nat, ds: Bytes, s: Bytes)
    requires AllDigits(ds) && !IsDigit(Peek(s))
    ensures TakeDigits(n, ds + s) == (Joined(n, |ds|, Decimal(ds)), s)
  {
    hide *;
    DigitsParse(n, ds, s);
    DigitsStop(Joined(n, |ds|, Decimal(ds)), s);
  }

  lemma JoinedZero(k: nat, f: nat)
    ensures Joined(0, k, f) == f
  {
  }

  lemma JoinedNone(n: nat, ds: Bytes)
    requires ds == []
    ensures Joined(n, |ds|, Decimal(ds)) == n
  {
  }

  /** A zero in front changes nothing. */
  lemma {:induction false} LeadingZero(m: Bytes)
    requires AllDigits(m)
    ensures AllDigits([ZERO] + m) && Decimal([ZERO] + m) == Decimal(m)
    decreases |m|
  {
    if m == [] {
      assert [ZERO] + m == [ZERO] && [ZERO][..0] == [];
    } else {
      LeadingZero(m[..|m| - 1]);
      assert ([ZERO] + m)[..|m|] == [ZERO] + m[..|m| - 1];
    }
  }

  // ---- the parser reads its parts ----

  lemma IntegerParses(ds: Bytes, s: Bytes)
    requires AllDigits(ds) && (Significant(ds) != [] ==> Significant(ds)[0] != ZERO) && DigitsEnd(ds, s)
    ensures IntegerPart(ds + s) == (Decimal(ds), s)
  {
    var m := Significant(ds);
    if ds != [] && ds[0] == ZERO {
      LeadingZero(m);
      assert ds == [ZERO] + m && (ds + s)[1..] == m + s;
    }
    hide TakeDigits, Joined, Decimal;
    if m == [] {
      assert m + s == s;
      NoDigits(ds);
    } else {
      JoinedZero(|m|, Decimal(m));
      DigitsTaken(0, m, s);
    }
  }

  lemma NoDigits(ds: Bytes)
    requires AllDigits(ds) && Significant(ds) == []
    ensures Decimal(ds) == 0
  {
  }

  lemma NoFraction(n: nat, s: Bytes)
    requires FracEnds([], s)
    ensures FractionPart(n, s) == (n, 0, s)
  {
  }

  lemma SomeFraction(n: nat, frac: Bytes, s: Bytes, m: nat)
    requires frac != [] && IsDigit(frac[0]) && TakeDigits(n, frac + s) == (m, s)
    ensures FractionPart(n, [46] + (frac + s)) == (m, -|frac|, s)
  {
    hide TakeDigits;
    assert ([46] + (frac + s))[1..] == frac + s;
  }

  lemma FractionParses(n: nat, frac: Bytes, s: Bytes)
    requires AllDigits(frac) && FracEnds(frac, s)
    ensures FractionPart(n, SpellFrac(frac, s)) == (Joined(n, |frac|, Decimal(frac)), -|frac|, s)
  {
    hide TakeDigits, Joined, Decimal, FractionPart, Peek;
    if frac == [] {
      JoinedNone(n, frac);
      NoFraction(n, s);
    } else {
      DigitsTaken(n, frac, s);
      SomeFraction(n, frac, s, Joined(n, |frac|, Decimal(frac)));
    }
  }

  lemma ExponentParses(e: Exp, rest: Bytes)
    requires ExpTaken(e) && ExpEnds(e, rest)
    ensures ExponentPart(SpellExp(e, rest)) == (Exponent(e), rest)
  {
    if e.Exp? {
      hide TakeDigits, Joined, Decimal;
      var s := e.digits + rest;
      JoinedZero(|e.digits|, Decimal(e.digits));
      assert SpellExp(e, rest)[1..] == e.sign + s;
      assert e.sign == [] ==> e.sign + s == s;
      assert e.sign != [] ==> (e.sign + s)[1..] == s;
      assert e.digits == [] ==> s == rest;
      DigitsTaken(0, e.digits, rest);
    }
  }

  // ---- powers of ten ----

  lemma TenUp(e: int)
    ensures Ten(e + 1) == 10.0 * Ten(e)
  {
  }

  lemma {:induction false} TenAdd(k: nat, e: int)
    ensures Ten(k + e) == Pow10(k) as real * Ten(e)
  {
    if k > 0 {
      TenAdd(k - 1, e);
      TenUp(k - 1 + e);
      TenTimes(Pow10(k - 1), Ten(e));
    }
  }

  lemma TenTimes(p: nat, t: real)
    ensures 10.0 * (p as real * t) == (10 * p) as real * t
  {
  }

  /** Digits behind the point count like more digits in front of it and a smaller exponent. */
  lemma FractionValue(n: nat, f: nat, k: nat, e: int)
    ensures Scaled(Joined(n, k, f), e - k) == Value(n, f, k, e)
  {
    TenAdd(k, e - k);
    TenAdd(k, -(k as int));
    TenZero();
    var p, a, b, c := Pow10(k) as real, Ten(-(k as int)), Ten(e), Ten(e - k);
    hide Ten, Pow10;
    assert p * a == 1.0 && p * c == b;
    Cancel(p, a, b, c);
    Spread(n as real, f as real, p, a, b, c);
    assert Joined(n, k, f) as real == n as real * p + f as real;
  }

  lemma Cancel(p: real, a: real, b: real, c: real)
    requires p * a == 1.0 && p * c == b
    ensures a * b == c
  {
    assert a * (p * c) == (p * a) * c;
  }

  lemma TenZero()
    ensures Ten(0) == 1.0
  {
  }

  lemma Spread(n: real, f: real, p: real, a: real, b: real, c: real)
    requires p * c == b && a * b == c
    ensures (n * p + f) * c == (n + f * a) * b
  {
    assert n * p * c == n * b;
    assert f * a * b == f * c;
  }

  /** Every numeral is read as its exact value. */
  lemma NumberParses(n: Numeral, rest: Bytes)
    requires Taken(n) && Ends(n, rest)
    ensures Peek(Spell(n, rest)) == MINUS || IsDigit(Peek(Spell(n, rest)))
    ensures ParseNumber(Spell(n, rest)) == Done(NumberItem(Exact(n)), rest)
  {
    hide TakeDigits, Pow10, Decimal, Joined, IntegerPart, FractionPart, ExponentPart, SpellFrac, SpellExp, Scaled,
      Value, Ten, NumberItem, ExpEnds, FracEnds, DigitsEnd;
    var s2 := SpellExp(n.exp, rest);
    var s1 := n.digits + SpellFrac(n.frac, s2);
    ExponentParses(n.exp, rest);
    FractionParses(Decimal(n.digits), n.frac, s2);
    IntegerParses(n.digits, SpellFrac(n.frac, s2));
    FractionValue(Decimal(n.digits), Decimal(n.frac), |n.frac|, Exponent(n.exp));
    var s := Spell(n, rest);
    assert s1 == if s[0] == MINUS then s[1..] else s by {
      assert n.minus ==> ([MINUS] + s1)[1..] == s1;
      assert !n.minus ==> [] + s1 == s1;
    }
  }

  // ---- and takes no others ----

  lemma {:induction false} DigitsExplained(n: nat, s: Bytes) returns (ds: Bytes)
    ensures AllDigits(ds) && !IsDigit(Peek(TakeDigits(n, s).1)) && s == ds + TakeDigits(n, s).1
    decreases |s|
  {
    if s != [] && IsDigit(s[0]) {
      ds := DigitsExplained(n * 10 + (s[0] as int - ZERO), s[1..]);
      ds := [s[0]] + ds;
    } else {
      ds := [];
    }
  }

  lemma IntegerExplained(s: Bytes) returns (ds: Bytes)
    ensures AllDigits(ds) && (Significant(ds) != [] ==> Significant(ds)[0] != ZERO)
    ensures DigitsEnd(ds, IntegerPart(s).1) && s == ds + IntegerPart(s).1
    ensures IsDigit(Peek(s)) ==> ds != []
  {
    hide TakeDigits;
    var s1 := if Peek(s) == ZERO then s[1..] else s;
    var m: Bytes := [];
    if 49 <= Peek(s1) <= 57 {
      m := DigitsExplained(0, s1);
      TakesSome(0, s1);
    }
    ds := (if Peek(s) == ZERO then [ZERO] else []) + m;
  }

  lemma TakesSome(n: nat, s: Bytes)
    requires IsDigit(Peek(s))
    ensures |TakeDigits(n, s).1| < |s|
  {
  }

  lemma FractionExplained(n: nat, s: Bytes) returns (frac: Bytes)
    ensures AllDigits(frac) && FracEnds(frac, FractionPart(n, s).2) && s == SpellFrac(frac, FractionPart(n, s).2)
  {
    hide TakeDigits;
    if Peek(s) == 46 && IsDigit(Peek(s[1..])) {
      frac := DigitsExplained(n, s[1..]);
      TakesSome(n, s[1..]);
      assert s == [46] + s[1..];
    } else {
      frac := [];
    }
  }

  lemma ExponentExplained(s: Bytes) returns (e: Exp)
    ensures ExpTaken(e) && ExpEnds(e, ExponentPart(s).1) && s == SpellExp(e, ExponentPart(s).1)
  {
    hide TakeDigits;
    if Peek(s) != 101 && Peek(s) != 69 {
      e := NoExp;
    } else {
      var s1 := s[1..];
      var sign: Bytes := if Peek(s1) == 43 || Peek(s1) == MINUS then [s1[0]] else [];
      var s2 := if sign != [] then s1[1..] else s1;
      var ds := DigitsExplained(0, s2);
      e := Exp(s[0], sign, ds);
      assert s == [s[0]] + s1 && s1 == sign + s2;
    }
  }

  lemma NumberExplained(s: Bytes) returns (n: Numeral)
    requires Peek(s) == MINUS || IsDigit(Peek(s))
    ensures Taken(n) && Ends(n, ParseNumber(s).rest) && s == Spell(n, ParseNumber(s).rest)
  {
    hide IntegerPart, FractionPart, ExponentPart, SpellFrac, SpellExp, ExpEnds, FracEnds, DigitsEnd, Ten, NumberItem;
    var s0 := if s[0] == MINUS then s[1..] else s;
    var ds := IntegerExplained(s0);
    var (m, s1) := IntegerPart(s0);
    var frac := FractionExplained(m, s1);
    var s2 := FractionPart(m, s1).2;
    var e := ExponentExplained(s2);
    n := Numeral(s[0] == MINUS, ds, frac, e);
    assert s == (if n.minus then [MINUS] else []) + s0;
  }

  /** parse_number takes exactly these numerals, each as far as it goes. */
  lemma NumberIff(s: Bytes, v: Json, rest: Bytes)
    requires Peek(s) == MINUS || IsDigit(Peek(s))
    ensures ParseNumber(s) == Done(v, rest)
       <==> exists n :: Taken(n) && Ends(n, rest) && s == Spell(n, rest) && v == NumberItem(Exact(n))
  {
    hide Taken, Ends, Spell, Exact, NumberItem, ParseNumber;
    if ParseNumber(s) == Done(v, rest) {
      var n := NumberExplained(s);
      NumberParses(n, rest);
    }
    forall n | Taken(n) && Ends(n, rest) && s == Spell(n, rest)
      ensures ParseNumber(s) == Done(NumberItem(Exact(n)), rest)
    {
      NumberParses(n, rest);
    }
  }
}
