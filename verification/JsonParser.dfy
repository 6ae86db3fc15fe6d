/** The parser of packages/cJSON-v1.0.2/cJSON.c (lines 102-121, 183-256, 326-345, 363-375, 412-437, 520-553), which
    walks a pointer over the text and fills buffers it sized beforehand, proved equal to the functions of
    JsonSpec. A position p stands for the pointer value+p; `Char` reads the terminator as 0. */
module JsonParser {
  import opened Utf8
  import opened JsonSpec

  // A returned pointer with what was built, a null pointer, or a run the model does not follow
  datatype Outcome<T> = At(value: T, end: nat) | Failed | Outside

  ghost predicate Agrees<T>(text: Bytes, r: Outcome<T>, p: Parsed<T>) {
    match p
    case Done(v, rest) => r.At? && r.value == v && r.end <= |text| && rest == text[r.end..]
    case Fail => r.Failed?
    case Unmodelled => r.Outside?
  }

  function Char(text: Bytes, p: nat): (c: Byte)
    ensures p <= |text| ==> c == Peek(text[p..])
  {
    if p < |text| then text[p] else 0
  }

  lemma Slice(text: Bytes, p: nat, k: nat)
    requires p + k <= |text|
    ensures text[p..][k..] == text[p + k..]
  {
  }

  method SkipBlanks(text: Bytes, pos: nat) returns (p: nat)
    requires pos <= |text|
    ensures pos <= p <= |text| && text[p..] == Skip(text[pos..])
  {
    p := pos;
    while p < |text| && 0 < text[p] <= 32
      invariant pos <= p <= |text| && Skip(text[p..]) == Skip(text[pos..])
    {
      Slice(text, p, 1);
      p := p + 1;
    }
  }

  // ---- numbers ----

  method ReadDigits(text: Bytes, pos: nat, n0: nat) returns (n: nat, p: nat)
    requires pos <= |text|
    ensures pos <= p <= |text| && (n, text[p..]) == TakeDigits(n0, text[pos..])
  {
    n, p := n0, pos;
    while p < |text| && IsDigit(text[p])
      invariant pos <= p <= |text| && TakeDigits(n, text[p..]) == TakeDigits(n0, text[pos..])
    {
      Slice(text, p, 1);
      n, p := n * 10 + (text[p] as int - ZERO), p + 1;
    }
  }

  method ReadInteger(text: Bytes, pos: nat) returns (n: nat, p: nat)
    requires pos <= |text|
    ensures pos <= p <= |text| && (n, text[p..]) == IntegerPart(text[pos..])
  {
    hide TakeDigits;
    n, p := 0, pos;
    if Char(text, p) == ZERO {
      Slice(text, p, 1);
      p := p + 1;
    }
    if 49 <= Char(text, p) <= 57 {
      n, p := ReadDigits(text, p, 0);
    }
  }

  method ReadFraction(text: Bytes, pos: nat, n0: nat) returns (n: nat, scale: int, p: nat)
    requires pos <= |text|
    ensures pos <= p <= |text| && (n, scale, text[p..]) == FractionPart(n0, text[pos..])
  {
    n, scale, p := n0, 0, pos;
    if Char(text, p) == 46 {
      Slice(text, p, 1);
      if IsDigit(Char(text, p + 1)) {
        p := p + 1;
        while p < |text| && IsDigit(text[p])
          invariant pos < p <= |text| && scale == pos + 1 - p
          invariant TakeDigits(n, text[p..]) == TakeDigits(n0, text[pos + 1..])
        {
          Slice(text, p, 1);
          n, scale, p := n * 10 + (text[p] as int - ZERO), scale - 1, p + 1;
        }
      }
    }
  }

  method ReadExponent(text: Bytes, pos: nat) returns (e: int, p: nat)
    requires pos <= |text|
    ensures pos <= p <= |text| && (e, text[p..]) == ExponentPart(text[pos..])
  {
    hide TakeDigits;
    e, p := 0, pos;
    if Char(text, p) == 101 || Char(text, p) == 69 {
      var sign, n: int := 1, 0;
      Slice(text, p, 1);
      p := p + 1;
      if Char(text, p) == 43 {
        Slice(text, p, 1);
        p := p + 1;
      } else if Char(text, p) == MINUS {
        Slice(text, p, 1);
        sign, p := -1, p + 1;
      }
      n, p := ReadDigits(text, p, 0);
      e := n * sign;
    }
  }

  method ReadNumber(text: Bytes, pos: nat) returns (r: Outcome<Json>)
    requires pos < |text| && (text[pos] == MINUS || IsDigit(text[pos]))
    ensures Agrees(text, r, ParseNumber(text[pos..]))
  {
    hide IntegerPart, FractionPart, ExponentPart, Scaled, Ten, NumberItem;
    var sign, p := 1.0, pos;
    if Char(text, p) == MINUS {
      Slice(text, p, 1);
      sign, p := -1.0, p + 1;
    }
    var n, scale, subscale;
    n, p := ReadInteger(text, p);
    n, scale, p := ReadFraction(text, p, n);
    subscale, p := ReadExponent(text, p);
    SignTimes(sign, n, scale + subscale);
    var x := sign * n as real * Ten(scale + subscale);
    assert x == (var y := Scaled(n, scale + subscale); if text[pos..][0] == MINUS then -y else y);
    r := At(NumberItem(x), p);
  }

  lemma SignTimes(sign: real, n: nat, e: int)
    requires sign == 1.0 || sign == -1.0
    ensures sign * n as real * Ten(e) == if sign == 1.0 then Scaled(n, e) else -Scaled(n, e)
  {
  }

  // ---- strings ----

  // The first pass of parse_string: whether it stops inside the text, and what it counts
  ghost predicate Closed(s: Bytes) {
    if Peek(s) == 0 || s[0] == QUOTE then true
    else if s[0] == BACKSLASH then Peek(s[1..]) != 0 && Closed(s[2..])
    else Closed(s[1..])
  }

  ghost function Room(s: Bytes): nat {
    if Peek(s) == 0 || s[0] == QUOTE then 0
    else if s[0] == BACKSLASH then 1 + (if |s| < 2 then 0 else Room(s[2..]))
    else 1 + Room(s[1..])
  }

  lemma RoomPlain(s: Bytes)
    requires s != [] && s[0] != QUOTE && s[0] != BACKSLASH && s[0] != 0
    ensures Room(s) == 1 + Room(s[1..]) && Closed(s) == Closed(s[1..])
  {
  }

  lemma RoomFour(s: Bytes)
    requires Four(s)
    ensures Room(s) == 4 + Room(s[4..]) && Closed(s) == Closed(s[4..])
  {
    hide Room, Closed;
    RoomPlain(s);
    RoomPlain(s[1..]);
    RoomPlain(s[2..]);
    RoomPlain(s[3..]);
    assert s[1..][1..] == s[2..] && s[2..][1..] == s[3..] && s[3..][1..] == s[4..];
  }

  lemma RoomEscape(s: Bytes)
    requires |s| > 1 && s[0] == BACKSLASH && s[1] != 0
    ensures Room(s) == 1 + Room(s[2..]) && Closed(s) == Closed(s[2..])
  {
    assert Peek(s[1..]) == s[1];
  }

  /** A \u escape never emits more bytes than the first pass counted for it. */
  lemma TranscodeRoom(s: Bytes)
    requires Transcode(s).Done?
    ensures Room(s) >= |Transcode(s).value| + Room(Transcode(s).rest)
    ensures Closed(s) == Closed(Transcode(s).rest)
  {
    hide Room, Closed, Encode, ParseHex4;
    RoomFour(s);
    if Transcode(s).rest != s[4..] {
      TranscodePair(s);
    }
  }

  lemma TranscodePair(s: Bytes)
    requires Four(s) && Transcode(s).Done? && Transcode(s).rest != s[4..]
    requires Room(s) == 4 + Room(s[4..]) && Closed(s) == Closed(s[4..])
    ensures Room(s) >= |Transcode(s).value| + Room(Transcode(s).rest)
    ensures Closed(s) == Closed(Transcode(s).rest)
  {
    hide Room, Closed, Encode, ParseHex4;
    var t := s[4..];
    assert t[1..] == s[5..] && t[2..] == s[6..] && s[6..][4..] == s[10..];
    RoomEscape(t);
    RoomFour(s[6..]);
  }

  /** If the first pass runs over the terminator, so does the second. */
  lemma {:induction false} OpenIsOutside(s: Bytes)
    requires !Closed(s)
    ensures Unescape(s).Unmodelled?
    decreases |s|
  {
    if s[0] != BACKSLASH {
      OpenIsOutside(s[1..]);
    } else if Peek(s[1..]) != 0 {
      if s[1] != 117 {
        OpenIsOutside(s[2..]);
      } else if Transcode(s[2..]).Done? {
        TranscodeRoom(s[2..]);
        OpenIsOutside(Transcode(s[2..]).rest);
      }
    }
  }

  method CountString(text: Bytes, start: nat) returns (closed: bool, len: nat)
    requires start <= |text|
    ensures closed == Closed(text[start..])
    ensures closed ==> len == Room(text[start..])
  {
    var ptr := start;
    len := 0;
    while Char(text, ptr) != QUOTE && Char(text, ptr) != 0
      invariant start <= ptr <= |text|
      invariant Closed(text[start..]) == Closed(text[ptr..])
      invariant Room(text[start..]) == len + Room(text[ptr..])
      decreases |text| - ptr
    {
      len := len + 1;
      Slice(text, ptr, 1);
      if text[ptr] == BACKSLASH {
        if Char(text, ptr + 1) == 0 {
          return false, len;
        }
        Slice(text, ptr, 2);
        ptr := ptr + 1;
      }
      ptr := ptr + 1;
    }
    closed := true;
  }

  // One continuation byte, written backwards
  method StoreTail(out: array<Byte>, m: nat, uc: nat, ghost n: nat, ghost end: nat) returns (m': nat, uc': nat)
    requires n < m <= end <= out.Length
    modifies out
    ensures m' == m - 1 && uc' == uc / 64
    ensures out[..n] == old(out[..n])
    ensures out[m'..end] == [Continuation(uc)] + old(out[m..end])
  {
    m', uc' := m - 1, uc / 64;
    out[m'] := Continuation(uc);
  }

  // The cases 4, 3 and 2 of the switch, each falling through to the next
  method StoreTails(out: array<Byte>, n: nat, code: nat) returns (m: nat, uc: nat)
    requires code < 0x110000 && n + ByteCount(code) <= out.Length
    modifies out
    ensures out[..n] == old(out[..n])
    ensures m == n + 1 && FirstByteMark[ByteCount(code)] + uc == Encode(code)[0]
    ensures [Encode(code)[0]] + out[m..n + ByteCount(code)] == Encode(code)
  {
    hide Continuation;
    ghost var end := n + ByteCount(code);
    m, uc := n + ByteCount(code), code;
    if ByteCount(code) >= 4 {
      m, uc := StoreTail(out, m, uc, n, end);
    }
    if ByteCount(code) >= 3 {
      m, uc := StoreTail(out, m, uc, n, end);
    }
    if ByteCount(code) >= 2 {
      m, uc := StoreTail(out, m, uc, n, end);
    }
  }

  // The fall-through switch: the bytes of uc from the last to the first
  method StoreUtf8(out: array<Byte>, n: nat, code: nat) returns (m: nat)
    requires code < 0x110000 && n + ByteCount(code) <= out.Length
    modifies out
    ensures m == n + ByteCount(code) && out[..m] == old(out[..n]) + Encode(code)
  {
    hide Encode;
    var len, uc := ByteCount(code), 0;
    m, uc := StoreTails(out, n, code);
    ghost var tail := out[m..n + len];
    m := m - 1;
    out[m] := FirstByteMark[len] + uc;
    m := m + len;
    assert out[n + 1..m] == tail;
    assert out[..m] == out[..n] + ([out[n]] + out[n + 1..m]);
  }

  // case 'u' of the switch; ptr is at the first hex digit
  method StoreEscape(text: Bytes, ptr: nat, out: array<Byte>, n: nat) returns (r: Outcome<nat>)
    requires ptr <= |text| && n + Room(text[ptr..]) < out.Length
    modifies out
    ensures !r.Failed? && (r.At? <==> Transcode(text[ptr..]).Done?)
    ensures r.At? ==> ptr <= r.end <= |text| && n <= r.value && r.value + Room(text[r.end..]) < out.Length
    ensures r.At? ==> Closed(text[ptr..]) == Closed(text[r.end..])
    ensures r.At? ==> Transcode(text[ptr..]).rest == text[r.end..]
    ensures r.At? ==> out[..r.value] == old(out[..n]) + Transcode(text[ptr..]).value
  {
    hide Encode, ParseHex4, Room, Closed, ByteCount;
    ghost var s := text[ptr..];
    if !Four(text[ptr..]) {
      return Outside;
    }
    var uc, p := ParseHex4(text[ptr..]), ptr + 4;
    assert s[4..] == text[p..];
    if 0xDC00 <= uc <= 0xDFFF || uc == 0 {
      TranscodeRoom(s);
      return At(n, p);
    }
    if 0xD800 <= uc <= 0xDBFF {
      if Char(text, p) != BACKSLASH || Char(text, p + 1) != 117 {
        assert p < |text| ==> s[5..] == text[p + 1..];
        TranscodeRoom(s);
        return At(n, p);
      }
      assert s[5..] == text[p + 1..] && s[6..] == text[p + 2..];
      if !Four(text[p + 2..]) {
        return Outside;
      }
      var uc2 := ParseHex4(text[p + 2..]);
      p := p + 6;
      assert s[10..] == text[p..];
      TranscodeRoom(s);
      if uc2 < 0xDC00 || uc2 > 0xDFFF {
        return At(n, p);
      }
      uc := 0x10000 + uc % 1024 * 1024 + uc2 % 1024;
    } else {
      TranscodeRoom(s);
    }
    var m := StoreUtf8(out, n, uc);
    r := At(m, p);
  }

  // The plain escapes and ordinary characters
  method StoreByte(out: array<Byte>, n: nat, b: Byte)
    requires n < out.Length
    modifies out
    ensures out[..n + 1] == old(out[..n]) + [b]
  {
    out[n] := b;
  }

  ghost predicate Filled(text: Bytes, start: nat, ptr: nat, done: Bytes, size: nat)
    requires start <= |text| && ptr <= |text|
  {
    && |done| + Room(text[ptr..]) < size
    && Closed(text[ptr..])
    && Unescape(text[start..]) == After(done, Unescape(text[ptr..]))
  }

  lemma FilledChar(text: Bytes, start: nat, ptr: nat, done: Bytes, size: nat)
    requires start <= |text| && ptr < |text| && Filled(text, start, ptr, done, size)
    requires text[ptr] != 0 && text[ptr] != QUOTE && text[ptr] != BACKSLASH
    ensures Filled(text, start, ptr + 1, done + [text[ptr]], size)
  {
    Slice(text, ptr, 1);
    RoomPlain(text[ptr..]);
    hide Room, Closed;
    AfterAfter(done, [text[ptr]], Unescape(text[ptr + 1..]));
  }

  lemma AfterAfter(a: Bytes, b: Bytes, r: Parsed<Bytes>)
    ensures After(a, After(b, r)) == After(a + b, r)
  {
    if r.Done? {
      assert a + (b + r.value) == (a + b) + r.value;
    }
  }

  // A closed literal has a character behind every backslash
  lemma FilledEscape(text: Bytes, start: nat, ptr: nat, done: Bytes, size: nat)
    requires start <= |text| && ptr < |text| && Filled(text, start, ptr, done, size)
    requires text[ptr] == BACKSLASH
    ensures ptr + 1 < |text| && text[ptr + 1] != 0
    ensures |done| + 1 + Room(text[ptr + 2..]) < size && Closed(text[ptr + 2..])
    ensures text[ptr + 1] != 117 ==> Filled(text, start, ptr + 2, done + [Unescaped(text[ptr + 1])], size)
    ensures text[ptr + 1] == 117 ==>
              match Transcode(text[ptr + 2..])
              case Done(b, s) => Unescape(text[start..]) == After(done + b, Unescape(s))
              case _ => Unescape(text[start..]).Unmodelled?
  {
    var s := text[ptr..];
    Slice(text, ptr, 1);
    assert ptr + 1 < |text| && text[ptr + 1] != 0;
    Slice(text, ptr, 2);
    RoomEscape(s);
    hide Room, Closed, Transcode;
    if text[ptr + 1] != 117 {
      AfterAfter(done, [Unescaped(text[ptr + 1])], Unescape(text[ptr + 2..]));
    } else if Transcode(text[ptr + 2..]).Done? {
      AfterAfter(done, Transcode(text[ptr + 2..]).value, Unescape(Transcode(text[ptr + 2..]).rest));
    }
  }

  /** The second pass of parse_string. The buffer has one byte more than the first pass counted:
      every byte, and the terminator, lands inside it. */
  method FillString(text: Bytes, start: nat, out: array<Byte>) returns (r: Outcome<Bytes>)
    requires start <= |text| && Closed(text[start..]) && Room(text[start..]) < out.Length
    modifies out
    ensures Agrees(text, r, Unescape(text[start..]))
    ensures r.At? ==> |r.value| < out.Length && out[..|r.value|] == r.value && out[|r.value|] == 0
  {
    hide Unescape, Room, Closed, Transcode, After;
    var ptr, n: nat := start, 0;
    EmptyAfter(Unescape(text[start..]));
    assert out[..0] == [];
    assert Filled(text, start, ptr, out[..0], out.Length);
    while Char(text, ptr) != QUOTE && Char(text, ptr) != 0
      invariant start <= ptr <= |text| && n < out.Length
      invariant Filled(text, start, ptr, out[..n], out.Length)
      decreases |text| - ptr
    {
      if Char(text, ptr) != BACKSLASH {
        FilledChar(text, start, ptr, out[..n], out.Length);
        StoreByte(out, n, text[ptr]);
        ptr, n := ptr + 1, n + 1;
      } else {
        FilledEscape(text, start, ptr, out[..n], out.Length);
        ptr := ptr + 1;
        if text[ptr] != 117 {
          StoreByte(out, n, Unescaped(text[ptr]));
          ptr, n := ptr + 1, n + 1;
        } else {
          var e := StoreEscape(text, ptr + 1, out, n);
          if e.Outside? {
            return Outside;
          }
          ptr, n := e.end, e.value;
        }
      }
    }
    LiteralEnds(text, start, ptr, out[..n], out.Length);
    out[n] := 0;
    r := At(out[..n], if Char(text, ptr) == QUOTE then ptr + 1 else ptr);
  }

  lemma EmptyAfter(r: Parsed<Bytes>)
    ensures After([], r) == r
  {
    if r.Done? {
      assert [] + r.value == r.value;
    }
  }

  lemma LiteralEnds(text: Bytes, start: nat, ptr: nat, done: Bytes, size: nat)
    requires start <= |text| && ptr <= |text| && Filled(text, start, ptr, done, size)
    requires Char(text, ptr) == QUOTE || Char(text, ptr) == 0
    ensures |done| < size
    ensures Unescape(text[start..]) == Done(done, text[if Char(text, ptr) == QUOTE then ptr + 1 else ptr..])
  {
    hide Closed, Room;
    assert done + [] == done;
    if Char(text, ptr) == QUOTE {
      Slice(text, ptr, 1);
    }
  }

  method ReadString(text: Bytes, pos: nat) returns (r: Outcome<Bytes>)
    requires pos <= |text|
    ensures Agrees(text, r, ParseString(text[pos..]))
  {
    hide Unescape, Room, Closed;
    if Char(text, pos) != QUOTE {
      return Failed;
    }
    Slice(text, pos, 1);
    var closed, len := CountString(text, pos + 1);
    if !closed {
      OpenIsOutside(text[pos + 1..]);
      return Outside;
    }
    var out := new Byte[len + 1];
    r := FillString(text, pos + 1, out);
  }

  // ---- values ----

  // What ParseItems returns when `vs` were read and the loop test is reached in front of s
  ghost function ItemsFrom(vs: seq<Json>, s: Bytes): Parsed<seq<Json>> {
    if Peek(s) == COMMA then
      match ParseItems(s[1..])
      case Done(more, rest) => Done(vs + more, rest)
      case other => other
    else if Peek(s) == 93 then Done(vs, s[1..])
    else Fail
  }

  lemma ItemsStart(s: Bytes)
    ensures ParseItems(s) == match ParseValue(Skip(s))
                             case Done(v, r) => ItemsFrom([v], Skip(r))
                             case Fail => Fail
                             case Unmodelled => Unmodelled
  {
    hide Skip, ParseValue;
  }

  lemma ItemsNext(vs: seq<Json>, s: Bytes)
    requires Peek(s) == COMMA
    ensures ItemsFrom(vs, s) == match ParseValue(Skip(s[1..]))
                                case Done(v, r) => ItemsFrom(vs + [v], Skip(r))
                                case Fail => Fail
                                case Unmodelled => Unmodelled
  {
    hide Skip, ParseValue, ParseItems;
    ItemsStart(s[1..]);
    match ParseValue(Skip(s[1..]))
    case Done(v, r) =>
      if ItemsFrom([v], Skip(r)).Done? && Peek(Skip(r)) == COMMA {
        var more := ParseItems(Skip(r)[1..]).value;
        assert vs + ([v] + more) == (vs + [v]) + more;
      }
    case _ =>
  }

  ghost function MembersFrom(ms: seq<Member>, s: Bytes): Parsed<seq<Member>> {
    if Peek(s) == COMMA then
      match ParseMembers(s[1..])
      case Done(more, rest) => Done(ms + more, rest)
      case other => other
    else if Peek(s) == 125 then Done(ms, s[1..])
    else Fail
  }

  lemma MembersStart(s: Bytes)
    ensures ParseMembers(s) == match ParseMember(s)
                               case Done(m, r) => MembersFrom([m], Skip(r))
                               case Fail => Fail
                               case Unmodelled => Unmodelled
  {
    hide Skip, ParseMember;
  }

  lemma MembersNext(ms: seq<Member>, s: Bytes)
    requires Peek(s) == COMMA
    ensures MembersFrom(ms, s) == match ParseMember(s[1..])
                                  case Done(m, r) => MembersFrom(ms + [m], Skip(r))
                                  case Fail => Fail
                                  case Unmodelled => Unmodelled
  {
    hide Skip, ParseMember, ParseMembers;
    MembersStart(s[1..]);
    match ParseMember(s[1..])
    case Done(m, r) =>
      if MembersFrom([m], Skip(r)).Done? && Peek(Skip(r)) == COMMA {
        var more := ParseMembers(Skip(r)[1..]).value;
        assert ms + ([m] + more) == (ms + [m]) + more;
      }
    case _ =>
  }

  // !strncmp(value, word, strlen(word))
  predicate StartsWith(text: Bytes, pos: nat, word: Bytes)
    requires pos <= |text|
    ensures StartsWith(text, pos, word) <==> word <= text[pos..]
  {
    pos + |word| <= |text| && text[pos..pos + |word|] == word
  }

  // parse_value: dispatch on the first character
  method ReadValue(text: Bytes, pos: nat) returns (r: Outcome<Json>)
    requires pos <= |text|
    ensures Agrees(text, r, ParseValue(text[pos..]))
    decreases |text| - pos, 1
  {
    hide ParseString, ParseNumber, ParseItems, ParseMembers, Skip;
    if StartsWith(text, pos, NULL_TEXT) {
      Slice(text, pos, 4);
      return At(Null, pos + 4);
    }
    if StartsWith(text, pos, FALSE_TEXT) {
      Slice(text, pos, 5);
      return At(False, pos + 5);
    }
    if StartsWith(text, pos, TRUE_TEXT) {
      Slice(text, pos, 4);
      return At(True, pos + 4);
    }
    var c := Char(text, pos);
    if c == QUOTE {
      var t := ReadString(text, pos);
      r := match t case At(s, p) => At(String(s), p) case Failed => Failed case Outside => Outside;
    } else if c == MINUS || IsDigit(c) {
      r := ReadNumber(text, pos);
    } else if c == 91 {
      r := ReadArray(text, pos);
    } else if c == 123 {
      r := ReadObject(text, pos);
    } else {
      r := Failed;
    }
  }

  ghost function ArrayValue(s: Bytes): Parsed<Json> {
    if Peek(s) == 93 then Done(Array([]), s[1..])
    else match ParseItems(s)
         case Done(items, rest) => Done(Array(items), rest)
         case Fail => Fail
         case Unmodelled => Unmodelled
  }

  lemma ArrayStarts(s: Bytes)
    requires Peek(s) == 91
    ensures ParseValue(s) == ArrayValue(Skip(s[1..]))
  {
    hide ParseItems, Skip;
  }

  method ReadArray(text: Bytes, pos: nat) returns (r: Outcome<Json>)
    requires pos < |text| && text[pos] == 91
    ensures Agrees(text, r, ParseValue(text[pos..]))
    decreases |text| - pos, 0
  {
    hide ParseValue, ParseItems, Skip;
    ArrayStarts(text[pos..]);
    Slice(text, pos, 1);
    var p := SkipBlanks(text, pos + 1);
    if Char(text, p) == 93 {
      Slice(text, p, 1);
      return At(Array([]), p + 1);
    }
    ghost var s := text[p..];
    ItemsStart(s);
    p := SkipBlanks(text, p);
    var child := ReadValue(text, p);
    if !child.At? {
      return child;
    }
    var items := [child.value];
    p := SkipBlanks(text, child.end);
    while Char(text, p) == COMMA
      invariant pos < p <= |text| && ParseItems(s) == ItemsFrom(items, text[p..])
      decreases |text| - p
    {
      ItemsNext(items, text[p..]);
      Slice(text, p, 1);
      p := SkipBlanks(text, p + 1);
      child := ReadValue(text, p);
      if !child.At? {
        return child;
      }
      items := items + [child.value];
      p := SkipBlanks(text, child.end);
    }
    if Char(text, p) == 93 {
      Slice(text, p, 1);
      return At(Array(items), p + 1);
    }
    r := Failed;
  }

  // The name, the colon and the value of one member
  method ReadMember(text: Bytes, pos: nat) returns (r: Outcome<Member>)
    requires pos <= |text|
    ensures Agrees(text, r, ParseMember(text[pos..]))
    decreases |text| - pos, 2
  {
    hide ParseValue, ParseString, Skip;
    var p := SkipBlanks(text, pos);
    var name := ReadString(text, p);
    if !name.At? {
      return if name.Failed? then Failed else Outside;
    }
    p := SkipBlanks(text, name.end);
    if Char(text, p) != COLON {
      return Failed;
    }
    Slice(text, p, 1);
    p := SkipBlanks(text, p + 1);
    var v := ReadValue(text, p);
    r := match v case At(j, end) => At(Member(name.value, j), end) case Failed => Failed case Outside => Outside;
  }

  ghost function ObjectValue(s: Bytes): Parsed<Json> {
    if Peek(s) == 125 then Done(Object([]), s[1..])
    else match ParseMembers(s)
         case Done(ms, rest) => Done(Object(ms), rest)
         case Fail => Fail
         case Unmodelled => Unmodelled
  }

  lemma ObjectStarts(s: Bytes)
    requires Peek(s) == 123
    ensures ParseValue(s) == ObjectValue(Skip(s[1..]))
  {
    hide ParseMembers, Skip;
  }

  method ReadObject(text: Bytes, pos: nat) returns (r: Outcome<Json>)
    requires pos < |text| && text[pos] == 123
    ensures Agrees(text, r, ParseValue(text[pos..]))
    decreases |text| - pos, 0
  {
    hide ParseValue, ParseMembers, ParseMember, Skip;
    ObjectStarts(text[pos..]);
    Slice(text, pos, 1);
    var p := SkipBlanks(text, pos + 1);
    if Char(text, p) == 125 {
      Slice(text, p, 1);
      return At(Object([]), p + 1);
    }
    ghost var s := text[p..];
    MembersStart(s);
    var child := ReadMember(text, p);
    if !child.At? {
      return if child.Failed? then Failed else Outside;
    }
    var members := [child.value];
    p := SkipBlanks(text, child.end);
    while Char(text, p) == COMMA
      invariant pos < p <= |text| && ParseMembers(s) == MembersFrom(members, text[p..])
      decreases |text| - p
    {
      MembersNext(members, text[p..]);
      Slice(text, p, 1);
      child := ReadMember(text, p + 1);
      if !child.At? {
        return if child.Failed? then Failed else Outside;
      }
      members := members + [child.value];
      p := SkipBlanks(text, child.end);
    }
    if Char(text, p) == 125 {
      Slice(text, p, 1);
      return At(Object(members), p + 1);
    }
    r := Failed;
  }

  // cJSON_ParseWithOpts; `whole` is require_null_terminated
  method ParseWithOpts(text: Bytes, whole: bool) returns (r: Outcome<Json>)
    ensures Agrees(text, r, ParseText(text, whole))
  {
    hide ParseValue, Skip;
    assert text[0..] == text;
    var p := SkipBlanks(text, 0);
    r := ReadValue(text, p);
    if r.At? && whole {
      p := SkipBlanks(text, r.end);
      r := if Char(text, p) != 0 then Failed else At(r.value, p);
    }
  }
}
