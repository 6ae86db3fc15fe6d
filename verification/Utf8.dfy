/** The UTF-16 to UTF-8 step of parse_string (packages/cJSON-v1.0.2/cJSON.c:222-244). */
module Utf8 {

  type Byte = b: int | 0 <= b < 256
  type Bytes = seq<Byte>

  // Unicode scalar values other than U+0000
  predicate Scalar(cp: int) {
    0 < cp < 0x110000 && !(0xD800 <= cp < 0xE000)
  }

  // How many bytes a code point takes
  function ByteCount(uc: nat): nat {
    if uc < 0x80 then 1 else if uc < 0x800 then 2 else if uc < 0x10000 then 3 else 4
  }

  const FirstByteMark: seq<nat> := [0x00, 0x00, 0xC0, 0xE0, 0xF0, 0xF8, 0xFC]

  // A continuation byte of the lowest six bits
  function Continuation(uc: nat): Byte {
    0x80 + uc % 64
  }

  /** The operators of a continuation byte in arithmetic, as Continuation has them. */
  lemma ContinuationBits(uc: bv32)
    ensures ((uc | 0x80) & 0xBF) == 0x80 + uc % 64
    ensures uc >> 6 == uc / 64
  {
  }

  /** A first byte mark and the bits left over for it do not overlap, so that Encode may add them. */
  lemma LeadBits(uc: bv8)
    ensures uc < 0x20 ==> uc | 0xC0 == 0xC0 + uc
    ensures uc < 0x10 ==> uc | 0xE0 == 0xE0 + uc
    ensures uc < 0x08 ==> uc | 0xF0 == 0xF0 + uc
  {
  }

  /** The two halves of a surrogate pair in arithmetic, as the transcoder joins them. */
  lemma SurrogateBits(uc: bv32, uc2: bv32)
    ensures 0x10000 + (((uc & 0x3FF) << 10) | (uc2 & 0x3FF)) == 0x10000 + (uc % 1024) * 1024 + uc2 % 1024
  {
  }

  // What the fall-through switch leaves in the buffer
  function Encode(uc: nat): (r: Bytes)
    requires uc < 0x110000
    ensures |r| == ByteCount(uc)
  {
    match ByteCount(uc)
    case 1 => [uc]
    case 2 => [FirstByteMark[2] + uc / 64, Continuation(uc)]
    case 3 => [FirstByteMark[3] + uc / 64 / 64, Continuation(uc / 64), Continuation(uc)]
    case _ => [FirstByteMark[4] + uc / 64 / 64 / 64, Continuation(uc / 64 / 64), Continuation(uc / 64),
        Continuation(uc)]
  }

  predicate IsTail(b: Byte) {
    0x80 <= b <= 0xBF
  }

  /** Well-formed UTF-8 of one scalar, by the byte ranges of section 4 of RFC 3629. */
  predicate WellFormed(b: Bytes) {
    if |b| == 1 then b[0] <= 0x7F
    else if |b| == 2 then 0xC2 <= b[0] <= 0xDF && IsTail(b[1])
    else if |b| == 3 then IsTail(b[2]) && SecondOf3(b[0], b[1])
    else |b| == 4 && IsTail(b[2]) && IsTail(b[3]) && SecondOf4(b[0], b[1])
  }

  predicate SecondOf3(a: Byte, b: Byte) {
    if a == 0xE0 then 0xA0 <= b <= 0xBF
    else if a == 0xED then 0x80 <= b <= 0x9F
    else 0xE1 <= a <= 0xEF && IsTail(b)
  }

  predicate SecondOf4(a: Byte, b: Byte) {
    if a == 0xF0 then 0x90 <= b <= 0xBF
    else if a == 0xF4 then 0x80 <= b <= 0x8F
    else 0xF1 <= a <= 0xF3 && IsTail(b)
  }

  /** The number a well-formed sequence stands for: the payload bits of section 3 of RFC 3629. */
  function Decode(b: Bytes): int
    requires WellFormed(b)
  {
    match |b|
    case 1 => b[0]
    case 2 => (b[0] as int - 0xC0) * 64 + (b[1] as int - 0x80)
    case 3 => (b[0] as int - 0xE0) * 4096 + (b[1] as int - 0x80) * 64 + (b[2] as int - 0x80)
    case _ =>
      (b[0] as int - 0xF0) * 262144 + (b[1] as int - 0x80) * 4096 + (b[2] as int - 0x80) * 64 + (b[3] as int - 0x80)
  }

  /** Every scalar becomes well-formed UTF-8 that decodes to it. */
  lemma EncodeDecodes(cp: int)
    requires Scalar(cp)
    ensures WellFormed(Encode(cp)) && Decode(Encode(cp)) == cp
  {
    Split(cp);
  }

  lemma Split(n: nat)
    ensures n == n / 64 * 64 + n % 64
    ensures n == n / 64 / 64 * 4096 + n / 64 % 64 * 64 + n % 64
    ensures n == n / 64 / 64 / 64 * 262144 + n / 64 / 64 % 64 * 4096 + n / 64 % 64 * 64 + n % 64
  {
  }

  /** Well-formed sequences have one reading and one writing. */
  lemma DecodeEncodes(b: Bytes)
    requires WellFormed(b) && b != [0]
    ensures Scalar(Decode(b)) && Encode(Decode(b)) == b
  {
    if |b| == 2 {
      DivMod(b[0] as int - 0xC0, b[1] as int - 0x80);
    } else if |b| == 3 {
      DecodeEncodes3(b);
    } else if |b| == 4 {
      DecodeEncodes4(b);
    }
  }

  lemma DecodeEncodes3(b: Bytes)
    requires WellFormed(b) && |b| == 3
    ensures Scalar(Decode(b)) && Encode(Decode(b)) == b
  {
    DivMod((b[0] as int - 0xE0) * 64 + (b[1] as int - 0x80), b[2] as int - 0x80);
    DivMod(b[0] as int - 0xE0, b[1] as int - 0x80);
  }

  lemma DecodeEncodes4(b: Bytes)
    requires WellFormed(b) && |b| == 4
    ensures Scalar(Decode(b)) && Encode(Decode(b)) == b
  {
    DivMod((b[0] as int - 0xF0) * 4096 + (b[1] as int - 0x80) * 64 + (b[2] as int - 0x80), b[3] as int - 0x80);
    DivMod((b[0] as int - 0xF0) * 64 + (b[1] as int - 0x80), b[2] as int - 0x80);
    DivMod(b[0] as int - 0xF0, b[1] as int - 0x80);
  }

  lemma DivMod(q: nat, r: nat)
    requires r < 64
    ensures (q * 64 + r) / 64 == q && (q * 64 + r) % 64 == r
  {
  }
}
