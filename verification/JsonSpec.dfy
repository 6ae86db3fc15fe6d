/** What packages/cJSON-v1.0.2/cJSON.c prints and what it accepts, as functions on byte strings.
    A text is a C string without its terminator; `Peek` reads the terminator as 0. */
module JsonSpec {
  import opened Utf8

  // The tree a cJSON item stands for; `child` chains become sequences, in list order
  datatype Json =
    | Null
    | False
    | True
    | Number(value: int)   // valueint and valuedouble agree
    | Real(exact: real)    // any other number, as valuedouble before rounding
    | String(text: Bytes)
    | Array(items: seq<Json>)
    | Object(members: seq<Member>)

  datatype Member = Member(name: Bytes, value: Json)

  const INT_MIN: int := -0x8000_0000
  const INT_MAX: int := 0x7FFF_FFFF

  // '"' '\\' etc. as bytes
  const QUOTE: Byte := 34
  const BACKSLASH: Byte := 92
  const COMMA: Byte := 44
  const COLON: Byte := 58
  const NEWLINE: Byte := 10
  const TAB: Byte := 9
  const SPACE: Byte := 32
  const ZERO: Byte := 48
  const MINUS: Byte := 45

  const NULL_TEXT: Bytes := [110, 117, 108, 108]
  const TRUE_TEXT: Bytes := [116, 114, 117, 101]
  const FALSE_TEXT: Bytes := [102, 97, 108, 115, 101]

  predicate NulFree(s: Bytes) {
    forall i :: 0 <= i < |s| ==> s[i] != 0
  }

  // Trees the printers are modelled on: int-range numbers and C strings
  predicate Printable(v: Json) {
    match v
    case Number(n) => INT_MIN <= n <= INT_MAX
    case Real(_) => false
    case String(t) => NulFree(t)
    case Array(items) => forall i :: 0 <= i < |items| ==> Printable(items[i])
    case Object(ms) => forall i :: 0 <= i < |ms| ==> NulFree(ms[i].name) && Printable(ms[i].value)
    case _ => true
  }

  // ---- printing ----

  function HexDigit(d: nat): Byte
    requires d < 16
  {
    if d < 10 then ZERO + d else 97 + (d - 10)
  }

  // One character of a string literal; four hex digits for the other control characters
  function EscapeChar(c: Byte): Bytes
    requires c != 0
  {
    if c > 31 && c != QUOTE && c != BACKSLASH then [c]
    else if c == BACKSLASH then [BACKSLASH, BACKSLASH]
    else if c == QUOTE then [BACKSLASH, QUOTE]
    else if c == 8 then [BACKSLASH, 98]
    else if c == 12 then [BACKSLASH, 102]
    else if c == 10 then [BACKSLASH, 110]
    else if c == 13 then [BACKSLASH, 114]
    else if c == 9 then [BACKSLASH, 116]
    else [BACKSLASH, 117, ZERO, ZERO, HexDigit(c / 16), HexDigit(c % 16)]
  }

  function Escape(s: Bytes): Bytes
    requires NulFree(s)
  {
    if s == [] then [] else EscapeChar(s[0]) + Escape(s[1..])
  }

  function Quoted(s: Bytes): Bytes
    requires NulFree(s)
  {
    [QUOTE] + Escape(s) + [QUOTE]
  }

  function Digits(n: nat): (r: Bytes)
    ensures |r| > 0
  {
    if n < 10 then [ZERO + n] else Digits(n / 10) + [ZERO + n % 10]
  }

  // The decimal text of an int
  function IntText(i: int): Bytes {
    if i < 0 then [MINUS] + Digits(-i) else Digits(i)
  }

  function Tabs(n: int): (r: Bytes)
    ensures |r| == if n > 0 then n else 0
    ensures forall i :: 0 <= i < |r| ==> r[i] == TAB
  {
    if n <= 0 then [] else [TAB] + Tabs(n - 1)
  }

  function Print(v: Json, depth: nat, fmt: bool): Bytes
    requires Printable(v)
    decreases v, 1
  {
    match v
    case Null => NULL_TEXT
    case False => FALSE_TEXT
    case True => TRUE_TEXT
    case Number(n) => IntText(n)
    case String(t) => Quoted(t)
    case Array(items) => [91] + PrintItems(items, depth + 1, fmt) + [93]
    case Object(ms) =>
      if ms == [] then [123] + (if fmt then [NEWLINE] + Tabs(depth - 1) else []) + [125]
      else [123] + (if fmt then [NEWLINE] else []) + PrintMembers(ms, depth + 1, fmt)
           + (if fmt then Tabs(depth) else []) + [125]
  }

  function Separator(fmt: bool): Bytes {
    if fmt then [COMMA, SPACE] else [COMMA]
  }

  function PrintItems(items: seq<Json>, depth: nat, fmt: bool): Bytes
    requires forall i :: 0 <= i < |items| ==> Printable(items[i])
    decreases items, 0
  {
    if items == [] then []
    else
      Print(items[0], depth, fmt)
      + (if |items| > 1 then Separator(fmt) else [])
      + PrintItems(items[1..], depth, fmt)
  }

  // name, colon, value, comma and line end of one member
  function MemberHead(name: Bytes, depth: nat, fmt: bool): Bytes
    requires NulFree(name)
  {
    (if fmt then Tabs(depth) else []) + Quoted(name) + [COLON] + (if fmt then [TAB] else [])
  }

  function MemberTail(last: bool, fmt: bool): Bytes {
    (if last then [] else [COMMA]) + (if fmt then [NEWLINE] else [])
  }

  function PrintMembers(ms: seq<Member>, depth: nat, fmt: bool): Bytes
    requires forall i :: 0 <= i < |ms| ==> NulFree(ms[i].name) && Printable(ms[i].value)
    decreases ms, 0
  {
    if ms == [] then []
    else
      MemberHead(ms[0].name, depth, fmt) + Print(ms[0].value, depth, fmt)
      + MemberTail(|ms| == 1, fmt) + PrintMembers(ms[1..], depth, fmt)
  }

  // ---- parsing ----

  // `Unmodelled` marks what is outside the model: a backslash in front of the terminator, and a \u escape with the
  // terminator, a quote or a backslash among its four characters
  datatype Parsed<T> = Done(value: T, rest: Bytes) | Fail | Unmodelled

  function Peek(s: Bytes): Byte {
    if s == [] then 0 else s[0]
  }

  function Skip(s: Bytes): (r: Bytes)
    ensures |r| <= |s|
  {
    if s != [] && 0 < s[0] <= 32 then Skip(s[1..]) else s
  }

  predicate IsDigit(c: Byte) {
    ZERO <= c <= 57
  }

  function TakeDigits(n: nat, s: Bytes): (r: (nat, Bytes))
    ensures |r.1| <= |s| && (IsDigit(Peek(s)) ==> |r.1| < |s|)
    decreases |s|
  {
    if s != [] && IsDigit(s[0]) then TakeDigits(n * 10 + (s[0] as int - ZERO), s[1..]) else (n, s)
  }

  // One zero and the digits
  function IntegerPart(s: Bytes): (r: (nat, Bytes))
    ensures |r.1| <= |s| && (IsDigit(Peek(s)) ==> |r.1| < |s|)
  {
    var s1 := if Peek(s) == ZERO then s[1..] else s;
    if 49 <= Peek(s1) <= 57 then TakeDigits(0, s1) else (0, s1)
  }

  // The digits behind a point are more digits of n, and move the exponent down
  function FractionPart(n: nat, s: Bytes): (r: (nat, int, Bytes))
    ensures |r.2| <= |s|
  {
    if Peek(s) == 46 && IsDigit(Peek(s[1..])) then
      var (m, rest) := TakeDigits(n, s[1..]);
      (m, |rest| - |s[1..]|, rest)
    else (n, 0, s)
  }

  // e or E, a sign, and digits, or none
  function ExponentPart(s: Bytes): (r: (int, Bytes))
    ensures |r.1| <= |s|
  {
    if Peek(s) != 101 && Peek(s) != 69 then (0, s)
    else
      var s1 := s[1..];
      var s2 := if Peek(s1) == 43 || Peek(s1) == MINUS then s1[1..] else s1;
      var (n, rest) := TakeDigits(0, s2);
      (if Peek(s1) == MINUS then -(n as int) else n, rest)
  }

  // 10^e
  function Ten(e: int): real
    decreases if e < 0 then -e else e
  {
    if e == 0 then 1.0 else if e > 0 then 10.0 * Ten(e - 1) else Ten(e + 1) / 10.0
  }

  function Scaled(m: nat, e: int): real {
    m as real * Ten(e)
  }

  // The item for a number
  function NumberItem(x: real): Json {
    if x == x.Floor as real && INT_MIN <= x.Floor <= INT_MAX then Number(x.Floor) else Real(x)
  }

  function ParseNumber(s: Bytes): (r: Parsed<Json>)
    requires Peek(s) == MINUS || IsDigit(Peek(s))
    ensures r.Done? ==> |r.rest| < |s|
  {
    var (n, s1) := IntegerPart(if s[0] == MINUS then s[1..] else s);
    var (m, scale, s2) := FractionPart(n, s1);
    var (e, rest) := ExponentPart(s2);
    var x := Scaled(m, scale + e);
    Done(NumberItem(if s[0] == MINUS then -x else x), rest)
  }

  function HexValue(c: Byte): (r: int)
    ensures -1 <= r < 16
  {
    if IsDigit(c) then c as int - ZERO
    else if 65 <= c <= 70 then c as int - 55
    else if 97 <= c <= 102 then c as int - 87
    else -1
  }

  predicate IsHex(c: Byte) {
    HexValue(c) >= 0
  }

  predicate Hex4(s: Bytes) {
    |s| >= 4 && IsHex(s[0]) && IsHex(s[1]) && IsHex(s[2]) && IsHex(s[3])
  }

  // Four characters inside the literal
  predicate Four(s: Bytes) {
    |s| >= 4 && forall i :: 0 <= i < 4 ==> s[i] != 0 && s[i] != QUOTE && s[i] != BACKSLASH
  }

  // parse_hex4
  function ParseHex4(s: Bytes): (h: nat)
    requires |s| >= 4
    ensures h < 0x10000
  {
    if Hex4(s) then ((HexValue(s[0]) * 16 + HexValue(s[1])) * 16 + HexValue(s[2])) * 16 + HexValue(s[3]) else 0
  }

  // case 'u': the bytes to emit and the text after the escape (or after the surrogate pair)
  function Transcode(s: Bytes): (r: Parsed<Bytes>)
    ensures r.Done? ==> |r.rest| <= |s| - 4 && |r.value| <= |s| - |r.rest|
  {
    if !Four(s) then Unmodelled
    else
      var uc := ParseHex4(s);
      if 0xDC00 <= uc <= 0xDFFF || uc == 0 then Done([], s[4..])
      else if 0xD800 <= uc <= 0xDBFF then
        if Peek(s[4..]) != BACKSLASH || Peek(s[5..]) != 117 then Done([], s[4..])
        else if !Four(s[6..]) then Unmodelled
        else
          var uc2 := ParseHex4(s[6..]);
          if uc2 < 0xDC00 || uc2 > 0xDFFF then Done([], s[10..])
          else Done(Encode(0x10000 + uc % 1024 * 1024 + uc2 % 1024), s[10..])
      else Done(Encode(uc), s[4..])
  }

  function Unescaped(c: Byte): Byte {
    if c == 98 then 8 else if c == 102 then 12 else if c == 110 then 10
    else if c == 114 then 13 else if c == 116 then 9 else c
  }

  // The body of a string literal, after the opening quote
  function Unescape(s: Bytes): (r: Parsed<Bytes>)
    ensures r.Done? ==> |r.rest| <= |s|
    decreases |s|
  {
    if Peek(s) == 0 then Done([], s)
    else if s[0] == QUOTE then Done([], s[1..])
    else if s[0] != BACKSLASH then
      match Unescape(s[1..])
      case Done(v, rest) => Done([s[0]] + v, rest)
      case other => other
    else if Peek(s[1..]) == 0 then Unmodelled
    else if s[1] == 117 then
      match Transcode(s[2..])
      case Done(b, s') =>
        (match Unescape(s')
         case Done(v, rest) => Done(b + v, rest)
         case other => other)
      case other => other
    else
      match Unescape(s[2..])
      case Done(v, rest) => Done([Unescaped(s[1])] + v, rest)
      case other => other
  }

  // What Unescape returns when it emitted `v` before the part that gives `r`
  function After(v: Bytes, r: Parsed<Bytes>): Parsed<Bytes> {
    match r
    case Done(w, rest) => Done(v + w, rest)
    case other => other
  }

  function ParseString(s: Bytes): (r: Parsed<Bytes>)
    ensures r.Done? ==> |r.rest| < |s|
  {
    if Peek(s) != QUOTE then Fail else Unescape(s[1..])
  }

  function ParseValue(s: Bytes): (r: Parsed<Json>)
    ensures r.Done? ==> |r.rest| < |s|
    decreases |s|, 0
  {
    if NULL_TEXT <= s then Done(Null, s[4..])
    else if FALSE_TEXT <= s then Done(False, s[5..])
    else if TRUE_TEXT <= s then Done(True, s[4..])
    else if Peek(s) == QUOTE then
      match ParseString(s)
      case Done(t, rest) => Done(String(t), rest)
      case Fail => Fail
      case Unmodelled => Unmodelled
    else if Peek(s) == MINUS || IsDigit(Peek(s)) then ParseNumber(s)
    else if Peek(s) == 91 then
      var v := Skip(s[1..]);
      if Peek(v) == 93 then Done(Array([]), v[1..])
      else
        match ParseItems(v)
        case Done(items, rest) => Done(Array(items), rest)
        case Fail => Fail
        case Unmodelled => Unmodelled
    else if Peek(s) == 123 then
      var v := Skip(s[1..]);
      if Peek(v) == 125 then Done(Object([]), v[1..])
      else
        match ParseMembers(v)
        case Done(ms, rest) => Done(Object(ms), rest)
        case Fail => Fail
        case Unmodelled => Unmodelled
    else Fail
  }

  // The items of an array up to and including the closing bracket
  function ParseItems(s: Bytes): (r: Parsed<seq<Json>>)
    ensures r.Done? ==> |r.rest| < |s|
    decreases |s|, 1
  {
    match ParseValue(Skip(s))
    case Fail => Fail
    case Unmodelled => Unmodelled
    case Done(v, r) =>
      var r1 := Skip(r);
      if Peek(r1) == COMMA then
        match ParseItems(r1[1..])
        case Done(vs, rest) => Done([v] + vs, rest)
        case other => other
      else if Peek(r1) == 93 then Done([v], r1[1..])
      else Fail
  }

  // One "name": value pair
  function ParseMember(s: Bytes): (r: Parsed<Member>)
    ensures r.Done? ==> |r.rest| < |s|
    decreases |s|, 1
  {
    match ParseString(Skip(s))
    case Fail => Fail
    case Unmodelled => Unmodelled
    case Done(name, r) =>
      var r1 := Skip(r);
      if Peek(r1) != COLON then Fail
      else
        match ParseValue(Skip(r1[1..]))
        case Done(v, rest) => Done(Member(name, v), rest)
        case Fail => Fail
        case Unmodelled => Unmodelled
  }

  function ParseMembers(s: Bytes): (r: Parsed<seq<Member>>)
    ensures r.Done? ==> |r.rest| < |s|
    decreases |s|, 2
  {
    match ParseMember(s)
    case Fail => Fail
    case Unmodelled => Unmodelled
    case Done(m, r) =>
      var r1 := Skip(r);
      if Peek(r1) == COMMA then
        match ParseMembers(r1[1..])
        case Done(ms, rest) => Done([m] + ms, rest)
        case other => other
      else if Peek(r1) == 125 then Done([m], r1[1..])
      else Fail
  }

  // cJSON_ParseWithOpts; `whole` is require_null_terminated
  function ParseText(s: Bytes, whole: bool): Parsed<Json> {
    match ParseValue(Skip(s))
    case Done(v, rest) =>
      if !whole then Done(v, rest) else if Peek(Skip(rest)) == 0 then Done(v, Skip(rest)) else Fail
    case other => other
  }
}
