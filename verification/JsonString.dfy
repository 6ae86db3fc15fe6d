/** The string literals of packages/cJSON-v1.0.2/cJSON.c:183-256 as sequences of characters: which ones parse_string
    takes and what it reads. It takes more than section 7 of RFC 8259 has: any byte but 0, any letter behind a
    backslash, four characters that are no hex digits, and a literal that the end of the text cuts off. */
module JsonString {
  import opened Utf8
  import opened JsonSpec

  // An unescaped byte, a backslash and a letter, or a backslash, u and four characters
  datatype Char = Raw(byte: Byte) | Short(letter: Byte) | Unit(hex: Bytes)

  predicate Inside(b: Byte) {
    b != 0 && b != QUOTE && b != BACKSLASH
  }

  predicate CharTaken(c: Char) {
    match c
    case Raw(b) => Inside(b)
    case Short(l) => l != 0 && l != 117
    case Unit(h) => |h| == 4 && forall i :: 0 <= i < |h| ==> Inside(h[i])
  }

  predicate CharsTaken(cs: seq<Char>) {
    forall i :: 0 <= i < |cs| ==> CharTaken(cs[i])
  }

  // ---- the text of the characters, in front of `rest` ----

  function SpellChar(c: Char, rest: Bytes): Bytes {
    match c
    case Raw(b) => [b] + rest
    case Short(l) => [BACKSLASH, l] + rest
    case Unit(h) => [BACKSLASH, 117] + (h + rest)
  }

  function SpellChars(cs: seq<Char>, rest: Bytes): Bytes {
    if cs == [] then rest else SpellChar(cs[0], SpellChars(cs[1..], rest))
  }

  function SpellString(cs: seq<Char>, rest: Bytes): Bytes {
    [QUOTE] + SpellChars(cs, [QUOTE] + rest)
  }

  // ---- what they are read as ----

  // The first and the second half of a surrogate pair
  predicate IsHigh(c: Char) {
    c.Unit? && |c.hex| == 4 && 0xD800 <= ParseHex4(c.hex) <= 0xDBFF
  }

  predicate IsLow(c: Char) {
    c.Unit? && |c.hex| == 4 && 0xDC00 <= ParseHex4(c.hex) <= 0xDFFF
  }

  predicate IsPair(cs: seq<Char>) {
    |cs| > 1 && IsHigh(cs[0]) && IsLow(cs[1])
  }

  // Section 7 of RFC 8259: the character that a pair stands for
  function PairValue(c: Char, d: Char): (cp: int)
    requires IsHigh(c) && IsLow(d)
    ensures Scalar(cp) && cp >= 0x10000
  {
    0x10000 + (ParseHex4(c.hex) - 0xD800) * 0x400 + (ParseHex4(d.hex) - 0xDC00)
  }

  // The letters that stand for another character
  const LETTERS: map<Byte, Byte> := map[0x62 := 0x08, 0x66 := 0x0C, 0x6E := 0x0A, 0x72 := 0x0D, 0x74 := 0x09]

  // It does not vanish
  predicate Kept(c: Char) {
    c.Unit? ==> |c.hex| == 4 && Scalar(ParseHex4(c.hex))
  }

  function CharReads(c: Char): Bytes
    requires Kept(c)
  {
    match c
    case Raw(b) => [b]
    case Short(l) => [if l in LETTERS then LETTERS[l] else l]
    case Unit(h) => Encode(ParseHex4(h))
  }

  // A unit that is no scalar value vanishes, and a first half that is not followed by a second one takes a unit behind
  // it along
  function CharsRead(cs: seq<Char>): Bytes
    decreases |cs|
  {
    if cs == [] then []
    else if IsPair(cs) then Encode(PairValue(cs[0], cs[1])) + CharsRead(cs[2..])
    else if Kept(cs[0]) then CharReads(cs[0]) + CharsRead(cs[1..])
    else CharsRead(cs[if IsHigh(cs[0]) && |cs| > 1 && cs[1].Unit? then 2 else 1..])
  }

  // ---- hex digits ----

  const LOWER: Bytes := [48, 49, 50, 51, 52, 53, 54, 55, 56, 57, 97, 98, 99, 100, 101, 102]
  const UPPER: Bytes := [48, 49, 50, 51, 52, 53, 54, 55, 56, 57, 65, 66, 67, 68, 69, 70]

  /** The digits from 0 to f, in both cases, and nothing else. */
  lemma HexDigits(c: Byte, d: nat)
    requires d < 16
    ensures HexValue(c) == d <==> c == LOWER[d] || c == UPPER[d]
  {
  }

  // ---- the parser reads them so ----

  // How Unescape reads a backslash followed by c
  lemma UnescapeStep(c: Byte, s: Bytes)
    requires c != 0
    ensures Unescape([BACKSLASH, c] + s)
         == if c == 117 then
              match Transcode(s)
              case Done(b, s') => After(b, Unescape(s'))
              case other => other
            else After([Unescaped(c)], Unescape(s))
  {
    var t := [BACKSLASH, c] + s;
    assert t[1..] == [c] + s && t[2..] == s;
  }

  lemma UnescapePlain(c: Byte, s: Bytes)
    requires c != 0 && c != QUOTE && c != BACKSLASH
    ensures Unescape([c] + s) == After([c], Unescape(s))
  {
    assert ([c] + s)[1..] == s;
  }

  lemma UnitHolds(h: Bytes, s: Bytes)
    requires CharTaken(Unit(h))
    ensures Four(h + s) && ParseHex4(h + s) == ParseHex4(h) && (h + s)[4..] == s
  {
    hide HexValue;
    assert (h + s)[..4] == h;
    assert forall i :: 0 <= i < 4 ==> (h + s)[i] == h[i] && Inside(h[i]);
  }

  lemma UnitParses(h: Bytes, s: Bytes)
    requires CharTaken(Unit(h)) && Kept(Unit(h))
    ensures Unescape([BACKSLASH, 117] + (h + s)) == After(Encode(ParseHex4(h)), Unescape(s))
  {
    UnitHolds(h, s);
    hide Unescape, Encode, ParseHex4, Four;
    UnescapeStep(117, h + s);
  }

  /** \u0000, four characters that are no hex digits, and a second half of a surrogate pair that stands alone vanish. */
  lemma UnitVanishes(h: Bytes, s: Bytes)
    requires CharTaken(Unit(h)) && (ParseHex4(h) == 0 || IsLow(Unit(h)))
    ensures Unescape(SpellChar(Unit(h), s)) == Unescape(s)
  {
    UnitHolds(h, s);
    hide Unescape, Encode, ParseHex4, Four;
    UnescapeStep(117, h + s);
    AfterNothing(Unescape(s));
  }

  /** So does a first half in front of anything but a \u escape; */
  lemma LoneHighVanishes(h: Bytes, s: Bytes)
    requires CharTaken(Unit(h)) && IsHigh(Unit(h)) && !([BACKSLASH, 117] <= s)
    ensures Unescape(SpellChar(Unit(h), s)) == Unescape(s)
  {
    UnitHolds(h, s);
    hide Unescape, Encode, ParseHex4, Four;
    UnescapeStep(117, h + s);
    AfterNothing(Unescape(s));
    assert s != [] ==> (h + s)[5..] == s[1..];
  }

  // Two escapes in a row
  lemma TwoUnits(h: Bytes, g: Bytes, s: Bytes)
    requires CharTaken(Unit(h)) && CharTaken(Unit(g))
    ensures var t := h + ([BACKSLASH, 117] + (g + s));
            && Four(t) && ParseHex4(t) == ParseHex4(h) && Peek(t[4..]) == BACKSLASH && Peek(t[5..]) == 117
            && Four(t[6..]) && ParseHex4(t[6..]) == ParseHex4(g) && t[10..] == s
  {
    var s1 := [BACKSLASH, 117] + (g + s);
    var t := h + s1;
    UnitHolds(g, s);
    UnitHolds(h, s1);
    hide ParseHex4, Four;
    assert t[4..] == s1 && t[5..] == [117] + (g + s) && t[6..] == g + s && t[10..] == s;
  }

  /** in front of an escape that is no second half it swallows that escape. */
  lemma HighSwallows(h: Bytes, g: Bytes, s: Bytes)
    requires CharTaken(Unit(h)) && IsHigh(Unit(h)) && CharTaken(Unit(g)) && !IsLow(Unit(g))
    ensures Unescape(SpellChar(Unit(h), SpellChar(Unit(g), s))) == Unescape(s)
  {
    TwoUnits(h, g, s);
    hide Unescape, Encode, ParseHex4, Four;
    UnescapeStep(117, h + ([BACKSLASH, 117] + (g + s)));
    AfterNothing(Unescape(s));
  }

  /** A pair is read as the one character it stands for. */
  lemma PairParses(h: Bytes, l: Bytes, s: Bytes)
    requires CharTaken(Unit(h)) && CharTaken(Unit(l)) && IsHigh(Unit(h)) && IsLow(Unit(l))
    ensures Unescape(SpellChar(Unit(h), SpellChar(Unit(l), s))) ==
        After(Encode(PairValue(Unit(h), Unit(l))), Unescape(s))
  {
    TwoUnits(h, l, s);
    SurrogateRest(ParseHex4(h), ParseHex4(l));
    hide Unescape, Encode, ParseHex4, Four;
    UnescapeStep(117, h + ([BACKSLASH, 117] + (l + s)));
  }

  lemma SurrogateRest(hi: nat, lo: nat)
    requires 0xD800 <= hi <= 0xDBFF && 0xDC00 <= lo <= 0xDFFF
    ensures hi % 1024 * 1024 == (hi - 0xD800) * 0x400 && lo % 1024 == lo - 0xDC00
  {
  }

  lemma AfterNothing(r: Parsed<Bytes>)
    ensures After([], r) == r
  {
    assert r.Done? ==> [] + r.value == r.value;
  }

  lemma CharParses(c: Char, s: Bytes)
    requires CharTaken(c) && Kept(c)
    ensures Unescape(SpellChar(c, s)) == After(CharReads(c), Unescape(s))
  {
    hide Unescape, Transcode, Encode, ParseHex4, Hex4;
    match c
    case Raw(b) => UnescapePlain(b, s);
    case Short(l) => UnescapeStep(l, s);
    case Unit(h) => UnitParses(h, s);
  }

  lemma Vanishes(c: Char, s: Bytes)
    requires CharTaken(c) && !Kept(c) && (IsHigh(c) ==> !([BACKSLASH, 117] <= s))
    ensures Unescape(SpellChar(c, s)) == Unescape(s)
  {
    if IsHigh(c) {
      LoneHighVanishes(c.hex, s);
    } else {
      UnitVanishes(c.hex, s);
    }
  }

  // Where a literal ends: at its quote, or at the end of the text
  predicate Ended(end: Bytes) {
    Peek(end) == QUOTE || Peek(end) == 0
  }

  function Behind(end: Bytes): Bytes
    requires Ended(end)
  {
    if Peek(end) == QUOTE then end[1..] else end
  }

  lemma AtEnd(end: Bytes)
    requires Ended(end)
    ensures Unescape(end) == Done([], Behind(end))
  {
  }

  lemma OtherStarts(cs: seq<Char>, end: Bytes)
    requires CharsTaken(cs) && Ended(end) && (cs == [] || !cs[0].Unit?)
    ensures !([BACKSLASH, 117] <= SpellChars(cs, end))
  {
    if cs != [] {
      var s := SpellChars(cs, end);
      assert s == SpellChar(cs[0], SpellChars(cs[1..], end)) && CharTaken(cs[0]);
      assert s[0] != BACKSLASH || s[1] != 117;
    }
  }

  /** The body of every literal that is taken is read as CharsRead says. */
  lemma {:induction false} CharsParse(cs: seq<Char>, end: Bytes)
    requires CharsTaken(cs) && Ended(end)
    ensures Unescape(SpellChars(cs, end)) == Done(CharsRead(cs), Behind(end))
    decreases |cs|
  {
    hide Unescape, SpellChar, CharReads, CharTaken, Kept, IsHigh, IsLow, PairValue, Encode, Behind;
    if cs == [] {
      AtEnd(end);
    } else if |cs| > 1 && IsHigh(cs[0]) && cs[1].Unit? {
      CharsParse(cs[2..], end);
      TwoChars(cs, end);
    } else {
      CharsParse(cs[1..], end);
      var s := SpellChars(cs[1..], end);
      if Kept(cs[0]) {
        CharParses(cs[0], s);
        NotPair(cs);
      } else {
        if IsHigh(cs[0]) {
          OtherStarts(cs[1..], end);
        }
        Vanishes(cs[0], s);
        NotPair(cs);
      }
    }
  }

  lemma NotPair(cs: seq<Char>)
    requires cs != [] && !(|cs| > 1 && IsHigh(cs[0]) && cs[1].Unit?)
    ensures !IsPair(cs)
  {
  }

  // A first half and a unit behind it
  lemma TwoChars(cs: seq<Char>, end: Bytes)
    requires CharsTaken(cs) && |cs| > 1 && IsHigh(cs[0]) && cs[1].Unit?
    ensures SpellChars(cs, end) == SpellChar(cs[0], SpellChar(cs[1], SpellChars(cs[2..], end)))
    ensures var s := SpellChars(cs[2..], end);
            if IsLow(cs[1]) then
              && Unescape(SpellChars(cs, end)) == After(Encode(PairValue(cs[0], cs[1])), Unescape(s))
              && CharsRead(cs) == Encode(PairValue(cs[0], cs[1])) + CharsRead(cs[2..])
            else Unescape(SpellChars(cs, end)) == Unescape(s) && CharsRead(cs) == CharsRead(cs[2..])
  {
    assert cs[1..][1..] == cs[2..] && CharTaken(cs[0]) && CharTaken(cs[1]);
    var s := SpellChars(cs[2..], end);
    hide Unescape, Encode, ParseHex4;
    assert !Kept(cs[0]);
    if IsLow(cs[1]) {
      PairParses(cs[0].hex, cs[1].hex, s);
    } else {
      HighSwallows(cs[0].hex, cs[1].hex, s);
    }
  }

  lemma StringParses(cs: seq<Char>, end: Bytes)
    requires CharsTaken(cs) && Ended(end)
    ensures ParseString([QUOTE] + SpellChars(cs, end)) == Done(CharsRead(cs), Behind(end))
  {
    hide Unescape, SpellChars;
    CharsParse(cs, end);
    assert ([QUOTE] + SpellChars(cs, end))[1..] == SpellChars(cs, end);
  }

  // ---- and takes no others ----

  lemma {:induction false} CharsExplained(s: Bytes) returns (cs: seq<Char>, end: Bytes)
    requires Unescape(s).Done?
    ensures CharsTaken(cs) && Ended(end) && s == SpellChars(cs, end)
    decreases |s|
  {
    if Peek(s) == 0 || s[0] == QUOTE {
      cs, end := [], s;
    } else if s[0] != BACKSLASH {
      cs, end := CharsExplained(s[1..]);
      cs := OneMore(Raw(s[0]), cs, end);
      assert [s[0]] + s[1..] == s;
    } else if s[1] != 117 {
      assert [BACKSLASH, s[1]] + s[2..] == s;
      cs, end := CharsExplained(s[2..]);
      cs := OneMore(Short(s[1]), cs, end);
    } else {
      var t := s[2..];
      var r := Transcode(t).rest;
      assert [BACKSLASH, 117] + t == s;
      cs, end := CharsExplained(r);
      cs := UnitsExplained(t, cs, end);
    }
  }

  lemma OneMore(c: Char, cs: seq<Char>, end: Bytes) returns (all: seq<Char>)
    requires CharTaken(c) && CharsTaken(cs)
    ensures all == [c] + cs && CharsTaken(all) && SpellChars(all, end) == SpellChar(c, SpellChars(cs, end))
  {
    all := [c] + cs;
    assert all[1..] == cs;
  }

  // What Transcode went over: one escape, or two
  lemma UnitsExplained(t: Bytes, cs: seq<Char>, end: Bytes) returns (all: seq<Char>)
    requires Transcode(t).Done? && CharsTaken(cs) && Transcode(t).rest == SpellChars(cs, end)
    ensures CharsTaken(all) && [BACKSLASH, 117] + t == SpellChars(all, end)
  {
    hide Encode, ParseHex4;
    var h, r := t[..4], Transcode(t).rest;
    assert CharTaken(Unit(h)) && t == h + t[4..];
    if r == t[4..] {
      all := OneMore(Unit(h), cs, end);
    } else {
      var g := t[6..][..4];
      assert t[4] == BACKSLASH && t[5] == 117 && r == t[10..];
      assert CharTaken(Unit(g)) && t[6..] == g + t[10..] && t[4..] == [BACKSLASH, 117] + t[6..];
      var more := OneMore(Unit(g), cs, end);
      all := OneMore(Unit(h), more, end);
    }
  }

  /** parse_string takes exactly the literals of these characters, closed or cut off by the end of the text. */
  lemma StringIff(s: Bytes, v: Bytes, rest: Bytes)
    ensures ParseString(s) == Done(v, rest)
       <==> exists cs, end :: CharsTaken(cs) && Ended(end) && s == [QUOTE] + SpellChars(cs, end)
                              && v == CharsRead(cs) && rest == Behind(end)
  {
    hide Unescape, CharsRead, SpellChars, CharsTaken, Behind;
    if ParseString(s) == Done(v, rest) {
      var cs, end := CharsExplained(s[1..]);
      assert s == [QUOTE] + SpellChars(cs, end);
      StringParses(cs, end);
    }
    forall cs, end | CharsTaken(cs) && Ended(end) && s == [QUOTE] + SpellChars(cs, end)
      ensures ParseString(s) == Done(CharsRead(cs), Behind(end))
    {
      StringParses(cs, end);
    }
  }
}
