/** The printer of packages/cJSON-v1.0.2/cJSON.c with p == 0 (lines 153-180, 258-315, 348-349, 378-409, 440-517,
    556-664): every value is rendered into a buffer whose size is computed first. Stores outside a
    buffer do not verify, so the computed sizes suffice. */
module JsonPrinter {
  import opened Utf8
  import opened JsonSpec

  // A C string: the text, then a terminator, then whatever the buffer holds
  ghost predicate CString(a: array<Byte>, t: Bytes)
    reads a
  {
    |t| < a.Length && a[..|t|] == t && a[|t|] == 0
  }

  // ---- printed text holds no terminator ----

  lemma NulFreeCat(a: Bytes, b: Bytes)
    requires NulFree(a) && NulFree(b)
    ensures NulFree(a + b)
  {
  }

  lemma {:induction false} EscapeNulFree(s: Bytes)
    requires NulFree(s)
    ensures NulFree(Escape(s))
  {
    if s != [] {
      EscapeNulFree(s[1..]);
    }
  }

  lemma {:induction false} DigitsNulFree(n: nat)
    ensures NulFree(Digits(n))
  {
    if n >= 10 {
      DigitsNulFree(n / 10);
    }
  }

  lemma TabsNulFree(n: int)
    ensures NulFree(Tabs(n))
  {
  }

  lemma QuotedNulFree(s: Bytes)
    requires NulFree(s)
    ensures NulFree(Quoted(s))
  {
    EscapeNulFree(s);
  }

  lemma {:induction false} PrintNulFree(v: Json, depth: nat, fmt: bool)
    requires Printable(v)
    ensures NulFree(Print(v, depth, fmt))
    decreases v, 1
  {
    match v
    case Number(n) => DigitsNulFree(if n < 0 then -n else n);
    case String(t) => QuotedNulFree(t);
    case Array(items) =>
      ItemsNulFree(items, depth + 1, fmt);
      hide PrintItems;
    case Object(ms) =>
      MembersNulFree(ms, depth + 1, fmt);
      ObjectNulFree(ms, depth, fmt);
    case _ =>
  }

  lemma ObjectNulFree(ms: seq<Member>, depth: nat, fmt: bool)
    requires Printable(Object(ms)) && NulFree(PrintMembers(ms, depth + 1, fmt))
    ensures NulFree(Print(Object(ms), depth, fmt))
  {
    hide PrintMembers, Tabs;
    TabsNulFree(depth - 1);
    TabsNulFree(depth);
    var nl := if fmt then [NEWLINE] else [];
    var close := if fmt then Tabs(depth) else [];
    NulFreeCat([123] + nl, PrintMembers(ms, depth + 1, fmt));
    NulFreeCat([123] + nl + PrintMembers(ms, depth + 1, fmt), close);
  }

  lemma {:induction false} ItemsNulFree(items: seq<Json>, depth: nat, fmt: bool)
    requires forall i :: 0 <= i < |items| ==> Printable(items[i])
    ensures NulFree(PrintItems(items, depth, fmt))
    decreases items, 0
  {
    if items != [] {
      hide Print;
      PrintNulFree(items[0], depth, fmt);
      ItemsNulFree(items[1..], depth, fmt);
      NulFreeCat(Print(items[0], depth, fmt), if |items| > 1 then Separator(fmt) else []);
    }
  }

  lemma {:induction false} MembersNulFree(ms: seq<Member>, depth: nat, fmt: bool)
    requires forall i :: 0 <= i < |ms| ==> NulFree(ms[i].name) && Printable(ms[i].value)
    ensures NulFree(PrintMembers(ms, depth, fmt))
    decreases ms, 0
  {
    if ms != [] {
      PrintNulFree(ms[0].value, depth, fmt);
      MembersNulFree(ms[1..], depth, fmt);
      HeadNulFree(ms[0].name, depth, fmt);
      var head, tail := MemberHead(ms[0].name, depth, fmt), MemberTail(|ms| == 1, fmt);
      var value := Print(ms[0].value, depth, fmt);
      assert NulFree(tail);
      assert PrintMembers(ms, depth, fmt) == head + value + tail + PrintMembers(ms[1..], depth, fmt);
      hide *;
      NulFreeCat(head, value);
      NulFreeCat(head + value, tail);
      NulFreeCat(head + value + tail, PrintMembers(ms[1..], depth, fmt));
    }
  }

  lemma HeadNulFree(name: Bytes, depth: nat, fmt: bool)
    requires NulFree(name)
    ensures NulFree(MemberHead(name, depth, fmt))
  {
    hide Quoted, Tabs;
    QuotedNulFree(name);
    TabsNulFree(depth);
    NulFreeCat(if fmt then Tabs(depth) else [], Quoted(name));
  }

  // ---- buffers ----

  method StrLen(a: array<Byte>, ghost t: Bytes) returns (n: nat)
    requires CString(a, t) && NulFree(t)
    ensures n == |t|
  {
    n := 0;
    forall k | 0 <= k < |t|
      ensures a[k] != 0
    {
      assert a[k] == a[..|t|][k];
    }
    while a[n] != 0
      invariant n <= |t|
      decreases |t| - n
    {
      n := n + 1;
    }
  }

  // memcpy and strcpy of a known text
  method Store(a: array<Byte>, n: nat, s: Bytes)
    requires n + |s| <= a.Length
    modifies a
    ensures a[..n + |s|] == old(a[..n]) + s
  {
    var i := 0;
    while i < |s|
      invariant 0 <= i <= |s| && a[..n + i] == old(a[..n]) + s[..i]
    {
      a[n + i] := s[i];
      i := i + 1;
      assert s[..i] == s[..i - 1] + [s[i - 1]];
    }
  }

  method StoreByte(a: array<Byte>, n: nat, b: Byte)
    requires n < a.Length
    modifies a
    ensures a[..n + 1] == old(a[..n]) + [b]
  {
    a[n] := b;
  }

  // memcpy(a + n, b, count)
  method Copy(a: array<Byte>, n: nat, b: array<Byte>, count: nat)
    requires a != b && count <= b.Length && n + count <= a.Length
    modifies a
    ensures a[..n + count] == old(a[..n]) + b[..count]
  {
    Store(a, n, b[..count]);
  }

  // The tabs in front of a name
  method StoreTabs(a: array<Byte>, n: nat, count: int) returns (m: nat)
    requires n + |Tabs(count)| <= a.Length
    modifies a
    ensures m == n + |Tabs(count)| && a[..m] == old(a[..n]) + Tabs(count)
  {
    m := n;
    var i := 0;
    while i < count
      invariant 0 <= i && (i <= count || i == 0) && m == n + i
      invariant a[..m] == old(a[..n]) + Tabs(i)
    {
      a[m] := TAB;
      m, i := m + 1, i + 1;
      assert Tabs(i) == Tabs(i - 1) + [TAB];
    }
  }

  // ---- strings ----

  predicate Special(c: Byte) {
    0 < c < 32 || c == QUOTE || c == BACKSLASH
  }

  lemma {:induction false} PlainEscape(s: Bytes)
    requires NulFree(s) && forall i :: 0 <= i < |s| ==> !Special(s[i])
    ensures Escape(s) == s
  {
    if s != [] {
      PlainEscape(s[1..]);
    }
  }

  lemma EscapeAt(s: Bytes, i: nat)
    requires NulFree(s) && i < |s|
    ensures Escape(s[i..]) == EscapeChar(s[i]) + Escape(s[i + 1..])
  {
    assert s[i..][1..] == s[i + 1..];
  }

  // strchr("\"\\\b\f\n\r\t", c)
  predicate Short(c: Byte) {
    c == QUOTE || c == BACKSLASH || c == 8 || c == 12 || c == 10 || c == 13 || c == 9
  }

  lemma EscapeCharLength(c: Byte)
    requires c != 0
    ensures |EscapeChar(c)| == if Short(c) then 2 else if c < 32 then 6 else 1
  {
  }

  /** The first passes of print_string_ptr: whether anything needs escaping, and the escaped length. */
  method MeasureString(s: Bytes) returns (flag: bool, len: nat)
    requires NulFree(s)
    ensures len == |Escape(s)| && (!flag ==> Escape(s) == s)
  {
    flag, len := false, 0;
    var i := 0;
    while i < |s|
      invariant 0 <= i <= |s|
      invariant !flag ==> forall k :: 0 <= k < i ==> !Special(s[k])
    {
      flag := flag || Special(s[i]);
      i := i + 1;
    }
    if !flag {
      PlainEscape(s);
      return flag, |s|;
    }
    i := 0;
    while i < |s|
      invariant 0 <= i <= |s| && len + |Escape(s[i..])| == |Escape(s)|
    {
      hide Escape, EscapeChar;
      EscapeAt(s, i);
      EscapeCharLength(s[i]);
      len := len + 1;
      if Short(s[i]) {
        len := len + 1;
      } else if s[i] < 32 {
        len := len + 5;
      }
      i := i + 1;
    }
  }

  // The body of the last loop of print_string_ptr
  method StoreEscaped(a: array<Byte>, n: nat, c: Byte) returns (m: nat)
    requires c != 0 && n + |EscapeChar(c)| <= a.Length
    modifies a
    ensures m == n + |EscapeChar(c)| && a[..m] == old(a[..n]) + EscapeChar(c)
  {
    if c > 31 && c != QUOTE && c != BACKSLASH {
      StoreByte(a, n, c);
      return n + 1;
    }
    StoreByte(a, n, BACKSLASH);
    if c == BACKSLASH || c == QUOTE {
      StoreByte(a, n + 1, c);
      m := n + 2;
    } else if Short(c) {
      StoreByte(a, n + 1, if c == 8 then 98 else if c == 12 then 102 else if c == 10 then 110 else if c == 13 then 114
          else 116);
      m := n + 2;
    } else {
      Store(a, n + 1, [117, ZERO, ZERO, HexDigit(c / 16), HexDigit(c % 16)]);
      m := n + 6;
    }
  }

  lemma EscapeMoves(w: Bytes, s: Bytes, i: nat)
    requires NulFree(s) && i < |s|
    ensures w + Escape(s[i..]) == (w + EscapeChar(s[i])) + Escape(s[i + 1..])
  {
    hide Escape, EscapeChar;
    EscapeAt(s, i);
  }

  // The copying loop, behind the first n bytes
  method StoreEscapes(a: array<Byte>, n: nat, s: Bytes) returns (m: nat)
    requires NulFree(s) && n + |Escape(s)| <= a.Length
    modifies a
    ensures m == n + |Escape(s)| && a[..m] == old(a[..n]) + Escape(s)
  {
    ghost var pre := a[..n];
    m := n;
    var i := 0;
    while i < |s|
      invariant 0 <= i <= |s| && n <= m <= a.Length
      invariant a[..m] + Escape(s[i..]) == pre + Escape(s)
    {
      hide Escape, EscapeChar;
      EscapeAt(s, i);
      EscapeMoves(a[..m], s, i);
      assert |a[..m] + Escape(s[i..])| == n + |Escape(s)|;
      m := StoreEscaped(a, m, s[i]);
      i := i + 1;
    }
    assert a[..m] == a[..m] + Escape(s[i..]);
  }

  /** The literal and its terminator behind the first n bytes of a buffer with len+3 bytes left. */
  method StoreQuoted(a: array<Byte>, n: nat, s: Bytes, flag: bool)
    requires NulFree(s) && n + |Escape(s)| + 3 <= a.Length
    requires !flag ==> Escape(s) == s
    modifies a
    ensures a[..n + |Quoted(s)|] == old(a[..n]) + Quoted(s)
    ensures a[n + |Quoted(s)|] == 0
  {
    hide Escape;
    ghost var pre := a[..n];
    StoreByte(a, n, QUOTE);
    var m := n + 1;
    if !flag {
      Store(a, m, s);
      m := m + |s|;
    } else {
      m := StoreEscapes(a, m, s);
    }
    StoreByte(a, m, QUOTE);
    assert a[..m + 1] == pre + Quoted(s);
    a[m + 1] := 0;
    assert a[..m + 1] == pre + Quoted(s);
  }

  // print_string_ptr
  method PrintString(s: Bytes) returns (out: array<Byte>)
    requires NulFree(s)
    ensures fresh(out) && CString(out, Quoted(s))
  {
    var flag, len := MeasureString(s);
    out := new Byte[len + 3];
    StoreQuoted(out, 0, s, flag);
  }

  // cJSON_strdup
  method Duplicate(s: Bytes) returns (out: array<Byte>)
    ensures fresh(out) && CString(out, s)
  {
    out := new Byte[|s| + 1];
    Store(out, 0, s);
    out[|s|] := 0;
  }

  // ---- numbers ----

  lemma {:induction false} DigitsCount(n: nat, k: nat, bound: nat)
    requires n < bound && 0 < k <= 10 && bound == [1, 10, 100, 1000, 10000, 100000, 1000000, 10000000, 100000000,
        1000000000, 10000000000][k]
    ensures |Digits(n)| <= k
    decreases k
  {
    if k > 1 && n >= 10 {
      DigitsCount(n / 10, k - 1, bound / 10);
    }
  }

  lemma IntTextFits(i: int)
    requires INT_MIN <= i <= INT_MAX
    ensures |IntText(i)| <= 11 && (i == 0 ==> |IntText(i)| == 1)
  {
    DigitsCount(if i < 0 then -i else i, 10, 10000000000);
  }

  // print_number in the int range
  method PrintNumber(i: int) returns (out: array<Byte>)
    requires INT_MIN <= i <= INT_MAX
    ensures fresh(out) && CString(out, IntText(i))
  {
    IntTextFits(i);
    out := new Byte[if i == 0 then 2 else 21];
    Store(out, 0, IntText(i));
    out[|IntText(i)|] := 0;
  }

  // ---- arrays ----

  lemma ItemsAt(items: seq<Json>, i: nat, depth: nat, fmt: bool)
    requires i < |items| && forall k :: 0 <= k < |items| ==> Printable(items[k])
    ensures PrintItems(items[i..], depth, fmt)
         == Print(items[i], depth, fmt)
            + ((if i + 1 < |items| then Separator(fmt) else []) + PrintItems(items[i + 1..], depth, fmt))
  {
    hide Print;
    assert items[i..][1..] == items[i + 1..];
  }

  // What the first loop of print_array adds to len
  ghost function ItemsRoom(items: seq<Json>, depth: nat, fmt: bool): (n: nat)
    requires forall k :: 0 <= k < |items| ==> Printable(items[k])
    ensures n >= |PrintItems(items, depth, fmt)|
  {
    if items == [] then 0
    else |Print(items[0], depth, fmt)| + 2 + (if fmt then 1 else 0) + ItemsRoom(items[1..], depth, fmt)
  }

  ghost predicate Entries(items: seq<Json>, entries: seq<array<Byte>>, depth: nat, fmt: bool)
    requires |entries| <= |items| && forall k :: 0 <= k < |items| ==> Printable(items[k])
    reads entries
  {
    forall k :: 0 <= k < |entries| ==> CString(entries[k], Print(items[k], depth, fmt))
  }

  // A value and strlen of its text
  method RenderValue(v: Json, depth: nat, fmt: bool) returns (ret: array<Byte>, n: nat)
    requires Printable(v)
    ensures fresh(ret) && CString(ret, Print(v, depth, fmt)) && n == |Print(v, depth, fmt)|
    decreases v, 3
  {
    hide Print;
    ret := PrintValue(v, depth, fmt);
    PrintNulFree(v, depth, fmt);
    n := StrLen(ret, Print(v, depth, fmt));
  }

  // The texts of the entries, and the length of the buffer to allocate
  method RenderItems(items: seq<Json>, depth: nat, fmt: bool) returns (entries: seq<array<Byte>>, len: nat)
    requires forall k :: 0 <= k < |items| ==> Printable(items[k])
    ensures fresh(entries) && |entries| == |items| && Entries(items, entries, depth, fmt)
    ensures len == 5 + ItemsRoom(items, depth, fmt)
    decreases items, 0
  {
    hide Print, ItemsRoom, Printable, CString;
    entries, len := [], 5;
    assert items[0..] == items;
    while |entries| < |items|
      invariant fresh(entries) && |entries| <= |items| && Entries(items, entries, depth, fmt)
      invariant len + ItemsRoom(items[|entries|..], depth, fmt) == 5 + ItemsRoom(items, depth, fmt)
    {
      var i := |entries|;
      var ret, n := RenderValue(items[i], depth, fmt);
      ItemsRoomAt(items, i, depth, fmt);
      entries, len := entries + [ret], len + n + 2 + (if fmt then 1 else 0);
    }
    assert ItemsRoom(items[|entries|..], depth, fmt) == 0 by {
      NoItemsRoom(depth, fmt);
    }
  }

  lemma ItemsRoomAt(items: seq<Json>, i: nat, depth: nat, fmt: bool)
    requires i < |items| && forall k :: 0 <= k < |items| ==> Printable(items[k])
    ensures ItemsRoom(items[i..], depth, fmt)
         == |Print(items[i], depth, fmt)| + 2 + (if fmt then 1 else 0) + ItemsRoom(items[i + 1..], depth, fmt)
  {
    hide Print;
    assert items[i..][1..] == items[i + 1..];
  }

  lemma NoItemsRoom(depth: nat, fmt: bool)
    ensures ItemsRoom([], depth, fmt) == 0
  {
  }

  // One round of the composing loop of print_array
  method JoinItem(out: array<Byte>, n: nat, entry: array<Byte>, ghost p: Bytes, sep: Bytes) returns (n': nat)
    requires out != entry && CString(entry, p) && NulFree(p) && n + |p| + |sep| < out.Length
    modifies out
    ensures n' == n + |p| + |sep| && out[..n'] == old(out[..n]) + p + sep
  {
    var k := StrLen(entry, p);
    Copy(out, n, entry, k);
    n' := n + k;
    Store(out, n', sep);
    n' := n' + |sep|;
    out[n'] := 0;
  }

  lemma ItemFits(was: Bytes, p: Bytes, sep: Bytes, rest: Bytes)
    ensures was + (p + (sep + rest)) == (was + p + sep) + rest
  {
    assert was + (p + (sep + rest)) == (was + p) + (sep + rest);
  }

  // The entries and their separators, behind the opening bracket
  method JoinItems(out: array<Byte>, items: seq<Json>, entries: seq<array<Byte>>, depth: nat, fmt: bool)
      returns (n: nat)
    requires forall k :: 0 <= k < |items| ==> Printable(items[k])
    requires |entries| == |items| && out !in entries && Entries(items, entries, depth, fmt)
    requires 1 + |PrintItems(items, depth, fmt)| < out.Length
    modifies out
    ensures n == 1 + |PrintItems(items, depth, fmt)| && out[..n] == [old(out[0])] + PrintItems(items, depth, fmt)
  {
    hide Print, PrintItems, Printable;
    ghost var all := [out[0]] + PrintItems(items, depth, fmt);
    n := 1;
    var i := 0;
    assert items[0..] == items;
    while i < |items|
      invariant 0 <= i <= |items| && 1 <= n <= |all| && Entries(items, entries, depth, fmt)
      invariant out[..n] + PrintItems(items[i..], depth, fmt) == all
    {
      ghost var p := Print(items[i], depth, fmt);
      var sep := if i + 1 < |items| then Separator(fmt) else [];
      ItemsAt(items, i, depth, fmt);
      PrintNulFree(items[i], depth, fmt);
      ItemFits(out[..n], p, sep, PrintItems(items[i + 1..], depth, fmt));
      assert |all| == n + |p| + |sep| + |PrintItems(items[i + 1..], depth, fmt)|;
      n := JoinItem(out, n, entries[i], p, sep);
      i := i + 1;
    }
    assert PrintItems(items[i..], depth, fmt) == [] by {
      EmptyItems(depth, fmt);
    }
    assert out[..n] == out[..n] + [];
  }

  lemma EmptyItems(depth: nat, fmt: bool)
    ensures PrintItems([], depth, fmt) == []
  {
  }

  // print_array
  method PrintArray(items: seq<Json>, depth: nat, fmt: bool) returns (out: array<Byte>)
    requires forall k :: 0 <= k < |items| ==> Printable(items[k])
    ensures fresh(out) && CString(out, [91] + PrintItems(items, depth + 1, fmt) + [93])
    decreases items, 1
  {
    hide Print, PrintItems;
    EmptyItems(depth + 1, fmt);
    if items == [] {
      out := new Byte[3];
      Store(out, 0, [91, 93]);
      out[2] := 0;
      assert [91] + PrintItems(items, depth + 1, fmt) + [93] == [91, 93];
      return;
    }
    var entries, len := RenderItems(items, depth + 1, fmt);
    out := new Byte[len];
    out[0] := 91;
    var n := JoinItems(out, items, entries, depth + 1, fmt);
    StoreByte(out, n, 93);
    out[n + 1] := 0;
    assert out[..n + 1] == [91] + PrintItems(items, depth + 1, fmt) + [93];
  }

  // ---- objects ----

  lemma MembersAt(ms: seq<Member>, i: nat, depth: nat, fmt: bool)
    requires i < |ms| && forall k :: 0 <= k < |ms| ==> NulFree(ms[k].name) && Printable(ms[k].value)
    ensures PrintMembers(ms[i..], depth, fmt)
         == MemberHead(ms[i].name, depth, fmt)
            + (Print(ms[i].value, depth, fmt) + (MemberTail(i + 1 == |ms|, fmt) +
                PrintMembers(ms[i + 1..], depth, fmt)))
  {
    hide Print, MemberHead, MemberTail;
    assert ms[i..][1..] == ms[i + 1..];
  }

  // What the first loop of print_object adds to len
  ghost function MembersRoom(ms: seq<Member>, depth: nat, fmt: bool): (n: nat)
    requires forall k :: 0 <= k < |ms| ==> NulFree(ms[k].name) && Printable(ms[k].value)
    ensures n >= |PrintMembers(ms, depth, fmt)|
  {
    if ms == [] then 0
    else |Print(ms[0].value, depth, fmt)| + |Quoted(ms[0].name)| + 2 + (if fmt then 2 + depth else 0)
         + MembersRoom(ms[1..], depth, fmt)
  }

  ghost predicate Rendered(ms: seq<Member>, names: seq<array<Byte>>, entries: seq<array<Byte>>, depth: nat, fmt: bool)
    requires |names| == |entries| <= |ms|
    requires forall k :: 0 <= k < |ms| ==> NulFree(ms[k].name) && Printable(ms[k].value)
    reads names, entries
  {
    forall k :: 0 <= k < |entries| ==>
      CString(names[k], Quoted(ms[k].name)) && CString(entries[k], Print(ms[k].value, depth, fmt))
  }

  method RenderName(s: Bytes) returns (str: array<Byte>, n: nat)
    requires NulFree(s)
    ensures fresh(str) && CString(str, Quoted(s)) && n == |Quoted(s)|
  {
    str := PrintString(s);
    QuotedNulFree(s);
    n := StrLen(str, Quoted(s));
  }

  lemma MembersRoomAt(ms: seq<Member>, i: nat, depth: nat, fmt: bool)
    requires i < |ms| && forall k :: 0 <= k < |ms| ==> NulFree(ms[k].name) && Printable(ms[k].value)
    ensures MembersRoom(ms[i..], depth, fmt)
         == |Print(ms[i].value, depth, fmt)| + |Quoted(ms[i].name)| + 2 + (if fmt then 2 + depth else 0)
            + MembersRoom(ms[i + 1..], depth, fmt)
  {
    hide Print, Quoted;
    assert ms[i..][1..] == ms[i + 1..];
  }

  // The quoted names and the texts of the values
  method RenderMembers(ms: seq<Member>, depth: nat, fmt: bool)
    returns (names: seq<array<Byte>>, entries: seq<array<Byte>>, len: nat)
    requires forall k :: 0 <= k < |ms| ==> NulFree(ms[k].name) && Printable(ms[k].value)
    ensures fresh(names) && fresh(entries) && |names| == |entries| == |ms|
    ensures Rendered(ms, names, entries, depth, fmt)
    ensures len == 7 + (if fmt then depth else 0) + MembersRoom(ms, depth, fmt)
    decreases ms, 0
  {
    hide Print, Quoted, MembersRoom, Printable, NulFree, CString;
    names, entries := [], [];
    len := 7 + (if fmt then depth else 0);
    ghost var base := len;
    assert ms[0..] == ms;
    while |entries| < |ms|
      invariant fresh(names) && fresh(entries) && |names| == |entries| <= |ms|
      invariant Rendered(ms, names, entries, depth, fmt)
      invariant len + MembersRoom(ms[|entries|..], depth, fmt) == base + MembersRoom(ms, depth, fmt)
    {
      var i := |entries|;
      var str, k := RenderName(ms[i].name);
      var ret, n := RenderValue(ms[i].value, depth, fmt);
      MembersRoomAt(ms, i, depth, fmt);
      RenderedMore(ms, names, entries, str, ret, depth, fmt);
      names, entries, len := names + [str], entries + [ret], len + n + k + 2 + (if fmt then 2 + depth else 0);
    }
    assert MembersRoom(ms[|entries|..], depth, fmt) == 0 by {
      NoMembersRoom(depth, fmt);
    }
  }

  lemma RenderedMore(ms: seq<Member>, names: seq<array<Byte>>, entries: seq<array<Byte>>,
                     str: array<Byte>, ret: array<Byte>, depth: nat, fmt: bool)
    requires |names| == |entries| < |ms|
    requires forall k :: 0 <= k < |ms| ==> NulFree(ms[k].name) && Printable(ms[k].value)
    requires Rendered(ms, names, entries, depth, fmt)
    requires CString(str, Quoted(ms[|names|].name)) && CString(ret, Print(ms[|names|].value, depth, fmt))
    ensures Rendered(ms, names + [str], entries + [ret], depth, fmt)
  {
    hide Print, Quoted, CString;
  }

  lemma NoMembersRoom(depth: nat, fmt: bool)
    ensures MembersRoom([], depth, fmt) == 0
  {
  }

  // One round of the composing loop of print_object
  method JoinMember(out: array<Byte>, n: nat, m: Member, last: bool, name: array<Byte>, entry: array<Byte>, depth: nat,
      fmt: bool)
    returns (n': nat)
    requires NulFree(m.name) && Printable(m.value) && out != name && out != entry
    requires CString(name, Quoted(m.name)) && CString(entry, Print(m.value, depth, fmt))
    requires n + |MemberHead(m.name, depth, fmt)| + |Print(m.value, depth, fmt)| + |MemberTail(last, fmt)| < out.Length
    modifies out
    ensures n' == n + |MemberHead(m.name, depth, fmt)| + |Print(m.value, depth, fmt)| + |MemberTail(last, fmt)|
    ensures out[..n'] == old(out[..n]) + (MemberHead(m.name, depth, fmt) + Print(m.value, depth, fmt) +
        MemberTail(last, fmt))
  {
    hide Print, MemberHead;
    ghost var pre := out[..n];
    PrintNulFree(m.value, depth, fmt);
    n' := JoinName(out, n, m.name, name, depth, fmt);
    var k := StrLen(entry, Print(m.value, depth, fmt));
    Copy(out, n', entry, k);
    n' := n' + k;
    Store(out, n', MemberTail(last, fmt));
    n' := n' + |MemberTail(last, fmt)|;
    out[n'] := 0;
    assert out[..n'] == pre + MemberHead(m.name, depth, fmt) + Print(m.value, depth, fmt) + MemberTail(last, fmt);
  }

  method JoinName(out: array<Byte>, n: nat, name: Bytes, str: array<Byte>, depth: nat, fmt: bool) returns (n': nat)
    requires NulFree(name) && out != str && CString(str, Quoted(name))
    requires n + |MemberHead(name, depth, fmt)| < out.Length
    modifies out
    ensures n' == n + |MemberHead(name, depth, fmt)|
    ensures out[..n'] == old(out[..n]) + MemberHead(name, depth, fmt)
  {
    hide Quoted, Tabs;
    ghost var pre := out[..n];
    QuotedNulFree(name);
    n' := n;
    if fmt {
      n' := StoreTabs(out, n', depth);
    }
    ghost var tabs := if fmt then Tabs(depth) else [];
    assert out[..n'] == pre + tabs;
    var k := StrLen(str, Quoted(name));
    Copy(out, n', str, k);
    n' := n' + k;
    Store(out, n', if fmt then [COLON, TAB] else [COLON]);
    n' := n' + (if fmt then 2 else 1);
    assert out[..n'] == pre + tabs + Quoted(name) + (if fmt then [COLON, TAB] else [COLON]);
    assert MemberHead(name, depth, fmt) == tabs + Quoted(name) + (if fmt then [COLON, TAB] else [COLON]);
  }

  method JoinMembers(out: array<Byte>, n0: nat, ms: seq<Member>, names: seq<array<Byte>>, entries: seq<array<Byte>>,
                     depth: nat, fmt: bool) returns (n: nat)
    requires forall k :: 0 <= k < |ms| ==> NulFree(ms[k].name) && Printable(ms[k].value)
    requires |names| == |entries| == |ms| && out !in names && out !in entries
    requires Rendered(ms, names, entries, depth, fmt)
    requires n0 + |PrintMembers(ms, depth, fmt)| < out.Length
    modifies out
    ensures n == n0 + |PrintMembers(ms, depth, fmt)| && out[..n] == old(out[..n0]) + PrintMembers(ms, depth, fmt)
  {
    hide Print, PrintMembers, MemberHead, MemberTail, Quoted;
    ghost var all := out[..n0] + PrintMembers(ms, depth, fmt);
    n := n0;
    var i := 0;
    assert ms[0..] == ms;
    while i < |ms|
      invariant 0 <= i <= |ms| && n0 <= n <= |all| && Rendered(ms, names, entries, depth, fmt)
      invariant out[..n] + PrintMembers(ms[i..], depth, fmt) == all
    {
      ghost var was := out[..n];
      ghost var rest := PrintMembers(ms[i + 1..], depth, fmt);
      MembersAt(ms, i, depth, fmt);
      MemberFits(was, MemberHead(ms[i].name, depth, fmt), Print(ms[i].value, depth, fmt),
          MemberTail(i + 1 == |ms|, fmt), rest);
      n := JoinMember(out, n, ms[i], i + 1 == |ms|, names[i], entries[i], depth, fmt);
      i := i + 1;
    }
    assert PrintMembers(ms[i..], depth, fmt) == [] by {
      EmptyMembers(depth, fmt);
    }
    assert out[..n] == out[..n] + [];
  }

  lemma MemberFits(was: Bytes, head: Bytes, value: Bytes, tail: Bytes, rest: Bytes)
    ensures was + (head + (value + (tail + rest))) == (was + (head + value + tail)) + rest
  {
    assert head + (value + (tail + rest)) == (head + value + tail) + rest;
  }

  lemma EmptyMembers(depth: nat, fmt: bool)
    ensures PrintMembers([], depth, fmt) == []
  {
  }

  // print_object
  method PrintObject(ms: seq<Member>, depth: nat, fmt: bool) returns (out: array<Byte>)
    requires forall k :: 0 <= k < |ms| ==> NulFree(ms[k].name) && Printable(ms[k].value)
    ensures fresh(out) && CString(out, Print(Object(ms), depth, fmt))
    decreases ms, 1
  {
    if ms == [] {
      out := PrintEmptyObject(depth, fmt);
      return;
    }
    hide PrintMembers, Tabs, Print, Printable, NulFree, Rendered;
    var names, entries, len := RenderMembers(ms, depth + 1, fmt);
    out := new Byte[len];
    JoinObject(out, ms, names, entries, depth, fmt);
  }

  // The lines of the members, behind the opening brace
  method JoinObject(out: array<Byte>, ms: seq<Member>, names: seq<array<Byte>>, entries: seq<array<Byte>>,
                    depth: nat, fmt: bool)
    requires ms != [] && forall k :: 0 <= k < |ms| ==> NulFree(ms[k].name) && Printable(ms[k].value)
    requires |names| == |entries| == |ms| && out !in names && out !in entries
    requires Rendered(ms, names, entries, depth + 1, fmt)
    requires out.Length >= 7 + (if fmt then depth + 1 else 0) + |PrintMembers(ms, depth + 1, fmt)|
    modifies out
    ensures CString(out, Print(Object(ms), depth, fmt))
  {
    hide PrintMembers, Tabs, Print, Printable, NulFree, CString;
    var head := if fmt then [123, NEWLINE] else [123];
    ObjectText(ms, depth, fmt);
    Store(out, 0, head);
    assert out[..0] == [];
    var n := JoinMembers(out, |head|, ms, names, entries, depth + 1, fmt);
    n := CloseObject(out, n, depth, fmt);
    CStringOf(out, n, Print(Object(ms), depth, fmt));
  }

  lemma CStringOf(a: array<Byte>, n: nat, t: Bytes)
    requires n < a.Length && a[..n] == t && a[n] == 0
    ensures CString(a, t)
  {
  }

  lemma ObjectText(ms: seq<Member>, depth: nat, fmt: bool)
    requires ms != [] && forall k :: 0 <= k < |ms| ==> NulFree(ms[k].name) && Printable(ms[k].value)
    ensures Printable(Object(ms))
    ensures Print(Object(ms), depth, fmt)
         == (if fmt then [123, NEWLINE] else [123]) + PrintMembers(ms, depth + 1, fmt)
            + (if fmt then Tabs(depth) else []) + [125]
  {
    hide PrintMembers, Tabs;
    assert [123] + [NEWLINE] == [123, NEWLINE];
  }

  // The tabs, the closing brace and the terminator
  method CloseObject(out: array<Byte>, n: nat, depth: nat, fmt: bool) returns (m: nat)
    requires n + |if fmt then Tabs(depth) else []| + 1 < out.Length
    modifies out
    ensures m == n + |if fmt then Tabs(depth) else []| + 1 && out[m] == 0
    ensures out[..m] == old(out[..n]) + (if fmt then Tabs(depth) else []) + [125]
  {
    hide Tabs;
    m := n;
    if fmt {
      m := StoreTabs(out, n, depth);
    }
    StoreByte(out, m, 125);
    m := m + 1;
    ghost var text := out[..m];
    out[m] := 0;
    assert out[..m] == text;
  }

  method PrintEmptyObject(depth: nat, fmt: bool) returns (out: array<Byte>)
    ensures fresh(out) && CString(out, Print(Object([]), depth, fmt))
  {
    out := new Byte[if fmt then depth + 4 else 3];
    var n := 1;
    out[0] := 123;
    if fmt {
      out[1] := NEWLINE;
      n := StoreTabs(out, 2, depth - 1);
    }
    StoreByte(out, n, 125);
    out[n + 1] := 0;
    assert out[..n + 1] == Print(Object([]), depth, fmt);
  }

  /** print_value without a print buffer: cJSON_Print and cJSON_PrintUnformatted at depth 0. */
  method PrintValue(v: Json, depth: nat, fmt: bool) returns (out: array<Byte>)
    requires Printable(v)
    ensures fresh(out) && CString(out, Print(v, depth, fmt))
    decreases v, 2
  {
    match v
    case Null => out := Duplicate(NULL_TEXT);
    case False => out := Duplicate(FALSE_TEXT);
    case True => out := Duplicate(TRUE_TEXT);
    case Number(i) => out := PrintNumber(i);
    case String(s) => out := PrintString(s);
    case Array(items) => out := PrintArray(items, depth, fmt);
    case Object(ms) => out := PrintObject(ms, depth, fmt);
  }
}
