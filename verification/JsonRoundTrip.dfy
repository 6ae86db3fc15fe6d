/** What packages/cJSON-v1.0.2/cJSON.c prints (lines 153-180, 258-315, 348-349, 378-409, 440-664) is a text of the
    grammar, and parsing it gives the tree back. */
module JsonRoundTrip {
  import opened Utf8
  import opened JsonSpec
  import opened JsonString
  import opened JsonLanguage
  import opened JsonGrammar
  import N = JsonNumber

  // ---- the derivation of a printed text ----

  function CharOf(c: Byte): Char
    requires c != 0
  {
    if c > 31 && c != QUOTE && c != BACKSLASH then Raw(c)
    else if c == BACKSLASH || c == QUOTE then Short(c)
    else if c == 8 then Short(98)
    else if c == 12 then Short(102)
    else if c == 10 then Short(110)
    else if c == 13 then Short(114)
    else if c == 9 then Short(116)
    else Unit([ZERO, ZERO, HexDigit(c / 16), HexDigit(c % 16)])
  }

  function CharsOf(s: Bytes): seq<Char>
    requires NulFree(s)
  {
    if s == [] then [] else [CharOf(s[0])] + CharsOf(s[1..])
  }

  function IntNum(n: int): Text {
    Num(N.Numeral(n < 0, Digits(if n < 0 then -n else n), [], N.NoExp))
  }

  function Derivation(v: Json, depth: nat, fmt: bool): Text
    requires Printable(v)
    decreases v, 1
  {
    match v
    case Number(n) => IntNum(n)
    case String(t) => Quote(CharsOf(t))
    case Array(items) => List([], ItemsOf(items, depth + 1, fmt, []))
    case Object(ms) =>
      if ms == [] then Record(if fmt then [NEWLINE] + Tabs(depth - 1) else [], [])
      else Record([], EntriesOf(ms, depth + 1, fmt))
    case _ => Word(v)
  }

  // `gap` is the white space in front of the first item
  function ItemsOf(items: seq<Json>, depth: nat, fmt: bool, gap: Bytes): (xs: seq<Item>)
    requires forall i :: 0 <= i < |items| ==> Printable(items[i])
    ensures |xs| == |items|
    decreases items, 0
  {
    if items == [] then []
    else
      [Item(gap, Derivation(items[0], depth, fmt), [])]
      + ItemsOf(items[1..], depth, fmt, if fmt then [SPACE] else [])
  }

  // The line end in front of a member, or of the brace, and the tabs behind it
  function NewLine(depth: int, fmt: bool): Bytes {
    if fmt then [NEWLINE] + Tabs(depth) else []
  }

  function EntriesOf(ms: seq<Member>, depth: nat, fmt: bool): (es: seq<Entry>)
    requires forall i :: 0 <= i < |ms| ==> NulFree(ms[i].name) && Printable(ms[i].value)
    ensures |es| == |ms|
    decreases ms, 0
  {
    if ms == [] then []
    else
      [EntryOf(ms[0], Derivation(ms[0].value, depth, fmt), depth, fmt, |ms| == 1)] + EntriesOf(ms[1..], depth, fmt)
  }

  function EntryOf(m: Member, t: Text, depth: nat, fmt: bool, last: bool): Entry
    requires NulFree(m.name)
  {
    Entry(NewLine(depth, fmt), CharsOf(m.name), [],
          Item(if fmt then [TAB] else [], t, if last then NewLine(depth - 1, fmt) else []))
  }

  // ---- the derivation is of the grammar and means the tree ----

  lemma HexDigitValue(d: nat)
    requires d < 16
    ensures HexValue(HexDigit(d)) == d
  {
  }

  lemma CharOfFits(c: Byte)
    requires c != 0
    ensures CharFormed(CharOf(c)) && Kept(CharOf(c)) && CharMeans(CharOf(c)) == [c]
  {
    HexDigitValue(c / 16);
    HexDigitValue(c % 16);
  }

  lemma {:induction false} CharsFitAll(s: Bytes)
    requires NulFree(s)
    ensures CharsFormed(CharsOf(s)) && CharsFit(CharsOf(s)) && CharsMean(CharsOf(s)) == s
  {
    if s != [] {
      CharsFitAll(s[1..]);
      CharOfFits(s[0]);
      hide CharOf, CharFormed, CharMeans;
      CharsCons(CharOf(s[0]), CharsOf(s[1..]));
    }
  }

  lemma CharsCons(c: Char, cs: seq<Char>)
    requires CharFormed(c) && Kept(c) && CharsFormed(cs) && CharsFit(cs)
    ensures CharsFormed([c] + cs) && CharsFit([c] + cs) && CharsMean([c] + cs) == CharMeans(c) + CharsMean(cs)
  {
    assert !IsHigh(c);
    hide CharFormed, CharMeans, Kept, IsHigh, IsLow;
    var all := [c] + cs;
    assert all[0] == c && all[1..] == cs;
  }

  lemma {:induction false} DigitsAre(m: nat)
    ensures N.AllDigits(Digits(m)) && N.Decimal(Digits(m)) == m
    ensures m > 0 ==> Digits(m)[0] != ZERO
  {
    if m >= 10 {
      DigitsAre(m / 10);
      var ds := Digits(m / 10);
      assert Digits(m)[..|ds|] == ds;
    }
  }

  lemma IntMeans(n: int)
    requires INT_MIN <= n <= INT_MAX
    ensures Formed(IntNum(n)) && Means(IntNum(n)) == Number(n)
  {
    var m: nat := if n < 0 then -n else n;
    DigitsAre(m);
    hide Digits;
    assert N.Decimal([]) == 0 && Ten(0) == 1.0;
    assert (m as real + 0.0) * 1.0 == m as real;
    assert (n as real).Floor == n;
  }

  /** The derivation follows the grammar, what it stands for is the tree, and an int and C strings can hold it. */
  lemma {:induction false} Derived(v: Json, depth: nat, fmt: bool)
    requires Printable(v)
    ensures var t := Derivation(v, depth, fmt); Formed(t) && Means(t) == v && Fits(t)
    decreases v, 1
  {
    match v
    case Number(n) => IntMeans(n);
    case String(t) => CharsFitAll(t);
    case Array(items) => ItemsDerived(items, depth + 1, fmt, []);
    case Object(ms) => EntriesDerived(ms, depth + 1, fmt);
    case _ =>
  }

  lemma {:induction false} ItemsDerived(items: seq<Json>, depth: nat, fmt: bool, gap: Bytes)
    requires White(gap) && forall i :: 0 <= i < |items| ==> Printable(items[i])
    ensures var xs := ItemsOf(items, depth, fmt, gap);
            && (forall i :: 0 <= i < |xs| ==> ItemFormed(xs[i]))
            && (forall i :: 0 <= i < |xs| ==> Formed(xs[i].value))
            && (forall i :: 0 <= i < |xs| ==> Fits(xs[i].value))
            && ItemsMean(xs) == items
    decreases items, 0
  {
    hide Derivation, Formed, Fits, Means, Printable;
    if items != [] {
      Derived(items[0], depth, fmt);
      ItemsDerived(items[1..], depth, fmt, if fmt then [SPACE] else []);
      assert items == [items[0]] + items[1..];
      assert ItemsOf(items, depth, fmt, gap)[1..] == ItemsOf(items[1..], depth, fmt, if fmt then [SPACE] else []);
    }
  }

  lemma {:induction false} EntriesDerived(ms: seq<Member>, depth: nat, fmt: bool)
    requires forall i :: 0 <= i < |ms| ==> NulFree(ms[i].name) && Printable(ms[i].value)
    ensures var es := EntriesOf(ms, depth, fmt);
            && (forall i :: 0 <= i < |es| ==> EntryFormed(es[i]) && CharsFit(es[i].name))
            && (forall i :: 0 <= i < |es| ==> Formed(es[i].item.value))
            && (forall i :: 0 <= i < |es| ==> Fits(es[i].item.value))
            && EntriesMean(es) == ms
    decreases ms, 0
  {
    hide Derivation, Formed, Fits, Means, Printable, CharsFit, CharsFormed, CharsMean, EntryOf, EntryFormed, NulFree;
    if ms != [] {
      Derived(ms[0].value, depth, fmt);
      EntryDerived(ms[0], Derivation(ms[0].value, depth, fmt), depth, fmt, |ms| == 1);
      EntriesDerived(ms[1..], depth, fmt);
      assert ms == [ms[0]] + ms[1..];
      assert EntriesOf(ms, depth, fmt)[1..] == EntriesOf(ms[1..], depth, fmt);
    }
  }

  lemma EntryDerived(m: Member, t: Text, depth: nat, fmt: bool, last: bool)
    requires NulFree(m.name) && !t.Open?
    ensures var e := EntryOf(m, t, depth, fmt, last);
            EntryFormed(e) && CharsFit(e.name) && CharsMean(e.name) == m.name && e.item.value == t
  {
    CharsFitAll(m.name);
    hide CharsOf, CharsFit, CharsFormed, CharsMean, NulFree;
  }

  // ---- the white space in it ----

  // The derivation without its white space
  function Bare(t: Text): Text
    decreases t, 1
  {
    match t
    case List(_, items) => List([], BareItems(items))
    case Record(_, es) => Record([], BareEntries(es))
    case _ => t
  }

  function BareItems(items: seq<Item>): seq<Item>
    decreases items, 0
  {
    if items == [] then [] else [Item([], Bare(items[0].value), [])] + BareItems(items[1..])
  }

  function BareEntries(es: seq<Entry>): seq<Entry>
    decreases es, 0
  {
    if es == [] then []
    else [Entry([], es[0].name, [], Item([], Bare(es[0].item.value), []))] + BareEntries(es[1..])
  }

  /** Unformatted text has no white space outside its strings, and formatted text is the same text with white space. */
  lemma {:induction false} Unformatted(v: Json, depth: nat, fmt: bool, depth': nat)
    requires Printable(v)
    ensures Bare(Derivation(v, depth, fmt)) == Derivation(v, depth', false)
    decreases v, 1
  {
    match v
    case Array(items) => ItemsUnformatted(items, depth + 1, fmt, [], depth' + 1);
    case Object(ms) => EntriesUnformatted(ms, depth + 1, fmt, depth' + 1);
    case _ =>
  }

  lemma {:induction false} ItemsUnformatted(items: seq<Json>, depth: nat, fmt: bool, gap: Bytes, depth': nat)
    requires forall i :: 0 <= i < |items| ==> Printable(items[i])
    ensures BareItems(ItemsOf(items, depth, fmt, gap)) == ItemsOf(items, depth', false, [])
    decreases items, 0
  {
    hide Derivation, Bare, Printable;
    if items != [] {
      var more := if fmt then [SPACE] else [];
      Unformatted(items[0], depth, fmt, depth');
      ItemsUnformatted(items[1..], depth, fmt, more, depth');
      assert ItemsOf(items, depth, fmt, gap)[1..] == ItemsOf(items[1..], depth, fmt, more);
    }
  }

  lemma {:induction false} EntriesUnformatted(ms: seq<Member>, depth: nat, fmt: bool, depth': nat)
    requires forall i :: 0 <= i < |ms| ==> NulFree(ms[i].name) && Printable(ms[i].value)
    ensures BareEntries(EntriesOf(ms, depth, fmt)) == EntriesOf(ms, depth', false)
    decreases ms, 0
  {
    hide Derivation, Bare, Printable, CharsOf, NulFree, Tabs;
    if ms != [] {
      Unformatted(ms[0].value, depth, fmt, depth');
      EntriesUnformatted(ms[1..], depth, fmt, depth');
      assert EntriesOf(ms, depth, fmt)[1..] == EntriesOf(ms[1..], depth, fmt);
    }
  }

  /** In formatted text each member stands on a line of its own, one tab deeper than the braces, with a tab between the
      colon and the value, and the brace stands on the next line. */
  lemma {:induction false} MemberLines(ms: seq<Member>, depth: nat, k: nat)
    requires depth > 0 && k < |ms| && forall i :: 0 <= i < |ms| ==> NulFree(ms[i].name) && Printable(ms[i].value)
    ensures var e := EntriesOf(ms, depth, true)[k];
            && e.before == [10] + Repeat(9, depth) && e.after == [] && e.item.before == [9]
            && e.item.after == if k == |ms| - 1 then [10] + Repeat(9, depth - 1) else []
    decreases ms
  {
    hide Derivation, Printable, CharsOf, NulFree, Tabs;
    TabsRepeat(depth);
    TabsRepeat(depth - 1);
    if k > 0 {
      MemberLines(ms[1..], depth, k - 1);
    }
  }

  function Repeat(b: Byte, n: nat): Bytes {
    seq(n, _ => b)
  }

  lemma TabsRepeat(n: nat)
    ensures Tabs(n) == Repeat(9, n)
  {
  }

  /** In a formatted array one space follows each comma. */
  lemma {:induction false} ItemGaps(items: seq<Json>, depth: nat, gap: Bytes, k: nat)
    requires k < |items| && forall i :: 0 <= i < |items| ==> Printable(items[i])
    ensures var i := ItemsOf(items, depth, true, gap)[k];
            i.before == (if k == 0 then gap else [32]) && i.after == []
    decreases items
  {
    hide Derivation, Printable;
    if k > 0 {
      ItemGaps(items[1..], depth, [32], k - 1);
    }
  }

  /** Only quotes, backslashes and control characters are escaped: seven of them by a letter, the others by a number. */
  lemma EscapedIff(c: Byte)
    requires c != 0
    ensures EscapeChar(c) == [c] <==> c >= 0x20 && c != 0x22 && c != 0x5C
    ensures CharOf(c).Short? <==> c in {0x22, 0x5C, 0x08, 0x0C, 0x0A, 0x0D, 0x09}
    ensures CharOf(c).Unit? ==> c < 0x20
  {
  }

  // ---- the text of the derivation is the printed text ----

  lemma {:induction false} EscapeSpelled(s: Bytes, rest: Bytes)
    requires NulFree(s)
    ensures SpellChars(CharsOf(s), rest) == Escape(s) + rest
  {
    if s == [] {
      assert Escape(s) + rest == rest;
    } else {
      hide CharOf, EscapeChar, SpellChar;
      EscapeSpelled(s[1..], rest);
      assert CharsOf(s)[1..] == CharsOf(s[1..]);
      CharSpelled(s[0], Escape(s[1..]) + rest);
      assert Escape(s) + rest == EscapeChar(s[0]) + (Escape(s[1..]) + rest);
    }
  }

  lemma CharSpelled(c: Byte, rest: Bytes)
    requires c != 0
    ensures SpellChar(CharOf(c), rest) == EscapeChar(c) + rest
  {
    hide HexDigit;
    UnitSpelled(HexDigit(c / 16), HexDigit(c % 16), rest);
  }

  lemma UnitSpelled(a: Byte, b: Byte, rest: Bytes)
    ensures [BACKSLASH, 117] + ([ZERO, ZERO, a, b] + rest) == [BACKSLASH, 117, ZERO, ZERO, a, b] + rest
  {
  }

  lemma QuotedSpelled(s: Bytes, rest: Bytes)
    requires NulFree(s)
    ensures SpellString(CharsOf(s), rest) == Quoted(s) + rest
  {
    hide Escape, CharsOf;
    EscapeSpelled(s, [QUOTE] + rest);
    assert [QUOTE] + (Escape(s) + ([QUOTE] + rest)) == Quoted(s) + rest;
  }

  /** What is printed is a text of the grammar, by the rules that the derivation names. */
  lemma {:induction false} PrintSpelled(v: Json, depth: nat, fmt: bool, rest: Bytes)
    requires Printable(v)
    ensures Spell(Derivation(v, depth, fmt), rest) == Print(v, depth, fmt) + rest
    decreases v, 1
  {
    match v
    case Number(n) => IntSpelled(n, rest);
    case String(t) => QuotedSpelled(t, rest);
    case Array(items) => ArraySpelled(items, depth, fmt, rest);
    case Object(ms) => ObjectSpelled(ms, depth, fmt, rest);
    case _ =>
  }

  lemma IntSpelled(n: int, rest: Bytes)
    ensures Spell(IntNum(n), rest) == IntText(n) + rest
  {
    hide Digits;
    var ds := Digits(if n < 0 then -n else n);
    assert [] + (ds + rest) == ds + rest;
    assert [MINUS] + (ds + rest) == ([MINUS] + ds) + rest;
  }

  lemma {:induction false} ArraySpelled(items: seq<Json>, depth: nat, fmt: bool, rest: Bytes)
    requires Printable(Array(items))
    ensures Spell(Derivation(Array(items), depth, fmt), rest) == Print(Array(items), depth, fmt) + rest
    decreases Array(items), 0
  {
    var b := PrintItems(items, depth + 1, fmt);
    assert items == [] ==> b == [];
    hide PrintItems;
    assert ([91] + b + [93]) + rest == [91] + (b + ([93] + rest));
    if items != [] {
      ItemsSpelled(items, depth + 1, fmt, [], rest);
      assert [] + (b + ([93] + rest)) == b + ([93] + rest);
    } else {
      assert [] + ([93] + rest) == [93] + rest;
    }
  }

  // The text of the first item taken apart
  lemma ItemsText(items: seq<Json>, depth: nat, fmt: bool, end: Bytes)
    requires items != [] && forall i :: 0 <= i < |items| ==> Printable(items[i])
    ensures PrintItems(items, depth, fmt) + end
         == Print(items[0], depth, fmt)
            + (if |items| == 1 then end
               else [COMMA] + ((if fmt then [SPACE] else []) + (PrintItems(items[1..], depth, fmt) + end)))
  {
    hide Print, Printable, PrintItems;
    if |items| == 1 {
      LastItemText(items, depth, fmt);
    } else {
      var gap := if fmt then [SPACE] else [];
      ItemsTextMore(items, depth, fmt, gap);
      RegroupItem(Print(items[0], depth, fmt), [COMMA], gap, PrintItems(items[1..], depth, fmt), end);
    }
  }

  lemma LastItemText(items: seq<Json>, depth: nat, fmt: bool)
    requires |items| == 1 && Printable(items[0])
    ensures PrintItems(items, depth, fmt) == Print(items[0], depth, fmt)
  {
    hide Print;
    assert PrintItems(items[1..], depth, fmt) == [];
  }

  lemma ItemsTextMore(items: seq<Json>, depth: nat, fmt: bool, gap: Bytes)
    requires |items| > 1 && gap == (if fmt then [SPACE] else []) && forall i :: 0 <= i < |items| ==> Printable(items[i])
    ensures PrintItems(items, depth, fmt)
         == Print(items[0], depth, fmt) + ([COMMA] + gap) + PrintItems(items[1..], depth, fmt)
  {
    hide Print;
    assert [COMMA] + gap == Separator(fmt);
  }

  lemma RegroupItem(p: Bytes, c: Bytes, g: Bytes, q: Bytes, end: Bytes)
    ensures (p + (c + g) + q) + end == p + (c + (g + (q + end)))
  {
    assert (p + (c + g) + q) + end == p + ((c + g) + (q + end));
  }

  lemma {:induction false} ItemsSpelled(items: seq<Json>, depth: nat, fmt: bool, gap: Bytes, rest: Bytes)
    requires items != [] && forall i :: 0 <= i < |items| ==> Printable(items[i])
    ensures SpellItems(ItemsOf(items, depth, fmt, gap), rest) == gap + (PrintItems(items, depth, fmt) + ([93] + rest))
    decreases items, 0
  {
    hide Print, PrintItems, Derivation, Spell, Printable;
    var xs := ItemsOf(items, depth, fmt, gap);
    var end := [93] + rest;
    var tail := if |items| == 1 then end else [COMMA] + SpellItems(xs[1..], rest);
    var gap' := if fmt then [SPACE] else [];
    assert [] + tail == tail;
    ItemsText(items, depth, fmt, end);
    PrintSpelled(items[0], depth, fmt, tail);
    if |items| > 1 {
      assert xs[1..] == ItemsOf(items[1..], depth, fmt, gap');
      ItemsSpelled(items[1..], depth, fmt, gap', rest);
    }
  }

  lemma {:induction false} ObjectSpelled(ms: seq<Member>, depth: nat, fmt: bool, rest: Bytes)
    requires Printable(Object(ms))
    ensures Spell(Derivation(Object(ms), depth, fmt), rest) == Print(Object(ms), depth, fmt) + rest
    decreases Object(ms), 0
  {
    hide PrintMembers, SpellEntries, Tabs, EntriesOf;
    if ms == [] {
      var gap := if fmt then [NEWLINE] + Tabs(depth - 1) else [];
      assert [123] + (gap + ([125] + rest)) == ([123] + gap + [125]) + rest;
    } else {
      EntriesSpelled(ms, depth + 1, fmt, rest);
      var nl, close := if fmt then [NEWLINE] else [], if fmt then Tabs(depth) else [];
      var b := PrintMembers(ms, depth + 1, fmt);
      assert ([123] + nl + b + close + [125]) + rest == [123] + (nl + (b + (close + ([125] + rest))));
    }
  }

  // The text of the first member, with the line end in front of it, taken apart
  lemma MembersText(ms: seq<Member>, depth: nat, fmt: bool, end: Bytes)
    requires ms != [] && forall i :: 0 <= i < |ms| ==> NulFree(ms[i].name) && Printable(ms[i].value)
    ensures var nl := if fmt then [NEWLINE] else [];
            nl + (PrintMembers(ms, depth, fmt) + end)
            == NewLine(depth, fmt) + (Quoted(ms[0].name) + ([COLON] + ((if fmt then [TAB] else [])
               + (Print(ms[0].value, depth, fmt) + ((if |ms| == 1 then [] else [COMMA])
               + (nl + (PrintMembers(ms[1..], depth, fmt) + end)))))))
  {
    hide Quoted, Print, Tabs, Printable;
    var nl := if fmt then [NEWLINE] else [];
    var tabs := if fmt then Tabs(depth) else [];
    var comma := if |ms| == 1 then [] else [COMMA];
    var more := PrintMembers(ms[1..], depth, fmt);
    var a, b, d, e := tabs, Quoted(ms[0].name), if fmt then [TAB] else [], Print(ms[0].value, depth, fmt);
    assert NewLine(depth, fmt) == nl + tabs;
    assert PrintMembers(ms, depth, fmt) == (a + b + [COLON] + d) + e + (comma + nl) + more;
    Regroup(nl, a, b, [COLON], d, e, comma, more, end);
  }

  lemma Regroup(n: Bytes, a: Bytes, b: Bytes, c: Bytes, d: Bytes, e: Bytes, f: Bytes, g: Bytes, h: Bytes)
    ensures n + (((a + b + c + d) + e + (f + n) + g) + h) == (n + a) + (b + (c + (d + (e + (f + (n + (g + h)))))))
  {
    var t := f + (n + (g + h));
    assert ((a + b + c + d) + e + (f + n) + g) + h == (a + b + c + d) + (e + t);
    assert (a + b + c + d) + (e + t) == a + (b + (c + (d + (e + t))));
  }

  lemma {:induction false} EntriesSpelled(ms: seq<Member>, depth: nat, fmt: bool, rest: Bytes)
    requires ms != [] && depth > 0
    requires forall i :: 0 <= i < |ms| ==> NulFree(ms[i].name) && Printable(ms[i].value)
    ensures SpellEntries(EntriesOf(ms, depth, fmt), rest)
         == (if fmt then [NEWLINE] else [])
            + (PrintMembers(ms, depth, fmt) + ((if fmt then Tabs(depth - 1) else []) + ([125] + rest)))
    decreases ms, 0
  {
    hide Print, Derivation, Spell, Printable, Quoted, SpellString, CharsOf, Tabs, NulFree;
    var es := EntriesOf(ms, depth, fmt);
    var nl, close := if fmt then [NEWLINE] else [], if fmt then Tabs(depth - 1) else [];
    var e, end := es[0], [125] + rest;
    var last := |ms| == 1;
    var tail := if last then end else [COMMA] + SpellEntries(es[1..], rest);
    var colon := [COLON] + SpellItem(e.item, tail);
    MembersText(ms, depth, fmt, close + end);
    PrintSpelled(ms[0].value, depth, fmt, e.item.after + tail);
    QuotedSpelled(ms[0].name, e.after + colon);
    assert [] + colon == colon;
    if last {
      assert PrintMembers(ms[1..], depth, fmt) == [];
      LastTail(nl, close, end);
      assert e.item.after == nl + close;
    } else {
      EntriesSpelled(ms[1..], depth, fmt, rest);
      assert es[1..] == EntriesOf(ms[1..], depth, fmt);
      assert [] + tail == tail;
    }
  }

  lemma LastTail(nl: Bytes, close: Bytes, end: Bytes)
    ensures [] + (nl + ([] + (close + end))) == (nl + close) + end
  {
  }

  // ---- escapes of any scalar ----

  // The four hex digits of a UTF-16 unit, in the form "%04x"
  function Hex4Text(u: nat): (r: Bytes)
    requires u < 0x10000
    ensures |r| == 4
  {
    [HexDigit(u / 4096), HexDigit(u / 256 % 16), HexDigit(u / 16 % 16), HexDigit(u % 16)]
  }

  // Section 7 of RFC 8259: \uXXXX, or a pair of them beyond the Basic Multilingual Plane
  function Utf16Escape(cp: int): seq<Char>
    requires Scalar(cp)
  {
    if cp < 0x10000 then [Unit(Hex4Text(cp))]
    else [Unit(Hex4Text(0xD800 + (cp - 0x10000) / 1024)), Unit(Hex4Text(0xDC00 + (cp - 0x10000) % 1024))]
  }

  lemma HexSplit(u: nat)
    requires u < 0x10000
    ensures u == ((u / 4096 * 16 + u / 256 % 16) * 16 + u / 16 % 16) * 16 + u % 16
  {
    assert u / 16 / 16 == u / 256 && u / 256 / 16 == u / 4096;
  }

  lemma Hex4TextParses(u: nat)
    requires u < 0x10000
    ensures CharFormed(Unit(Hex4Text(u))) && ParseHex4(Hex4Text(u)) == u
  {
    hide HexDigit, HexValue;
    HexDigitValue(u / 4096);
    HexDigitValue(u / 256 % 16);
    HexDigitValue(u / 16 % 16);
    HexDigitValue(u % 16);
    HexSplit(u);
  }

  // The two surrogates of a code point beyond the Basic Multilingual Plane, section 3.8 of Unicode
  lemma SurrogateSplit(cp: int)
    requires 0x10000 <= cp < 0x110000
    ensures 0xD800 <= 0xD800 + (cp - 0x10000) / 1024 <= 0xDBFF
    ensures 0xDC00 <= 0xDC00 + (cp - 0x10000) % 1024 <= 0xDFFF
    ensures 0x10000 + (cp - 0x10000) / 1024 * 1024 + (cp - 0x10000) % 1024 == cp
  {
  }

  /** Every scalar value written as UTF-16 escapes is read as its UTF-8 encoding. */
  lemma UnicodeEscapeParses(cp: int, s: Bytes)
    requires Scalar(cp)
    ensures Unescape(SpellChars(Utf16Escape(cp), s)) == After(Encode(cp), Unescape(s))
  {
    hide Unescape, Hex4Text, Encode, ParseHex4, Hex4, SpellChar;
    if cp < 0x10000 {
      Hex4TextParses(cp);
      var c := Unit(Hex4Text(cp));
      CharFormedTaken(c);
      CharParses(c, s);
      assert [c][1..] == [] && SpellChars([c][1..], s) == s;
    } else {
      var hi, lo := 0xD800 + (cp - 0x10000) / 1024, 0xDC00 + (cp - 0x10000) % 1024;
      SurrogateSplit(cp);
      Hex4TextParses(hi);
      Hex4TextParses(lo);
      var c, d := Unit(Hex4Text(hi)), Unit(Hex4Text(lo));
      CharFormedTaken(c);
      CharFormedTaken(d);
      PairParses(c.hex, d.hex, s);
      assert [c, d][1..] == [d] && [d][1..] == [] && SpellChars([d][1..], s) == s;
    }
  }

  // ---- round trips ----

  /** A printed string literal parses back to the string and stops right behind it. */
  lemma QuotedParses(s: Bytes, rest: Bytes)
    requires NulFree(s)
    ensures ParseString(Quoted(s) + rest) == Done(s, rest)
  {
    QuotedSpelled(s, rest);
    CharsFitAll(s);
    StringAsMeantIff(CharsOf(s), rest);
  }

  /** Every int-range number parses back from its decimal text. */
  lemma IntTextParses(n: int, rest: Bytes)
    requires INT_MIN <= n <= INT_MAX && Delimited(rest)
    ensures Peek(IntText(n) + rest) == MINUS || IsDigit(Peek(IntText(n) + rest))
    ensures ParseNumber(IntText(n) + rest) == Done(Number(n), rest)
  {
    hide Digits, ParseNumber;
    IntSpelled(n, rest);
    Derived(Number(n), 0, false);
    GrammarParses(IntNum(n), rest);
    N.NumberParses(IntNum(n).numeral, rest);
  }

  /** The text of a value, followed by anything that cannot continue a number, parses back to the
      value and leaves exactly what followed. */
  lemma ValueRound(v: Json, depth: nat, fmt: bool, rest: Bytes)
    requires Printable(v) && Delimited(rest)
    ensures ParseValue(Print(v, depth, fmt) + rest) == Done(v, rest)
  {
    PrintSpelled(v, depth, fmt, rest);
    Derived(v, depth, fmt);
    ParsesAsMeantIff(Derivation(v, depth, fmt), rest);
  }

  /** cJSON_Parse(cJSON_Print(v)) and cJSON_Parse(cJSON_PrintUnformatted(v)): the same tree, and
      the whole text is consumed, so that asking for nothing behind the value changes nothing. */
  lemma RoundTrip(v: Json, fmt: bool, whole: bool)
    requires Printable(v)
    ensures ParseText(Print(v, 0, fmt), whole) == Done(v, [])
  {
    hide ParseText, Print, Derivation, Spell, Formed, Means, Fits;
    Derived(v, 0, fmt);
    PrintSpelled(v, 0, fmt, []);
    var p, t := Print(v, 0, fmt), Derivation(v, 0, fmt);
    assert p + [] == p;
    TextOfGrammar(Item([], t, []), whole);
    NothingAround(t);
  }

  lemma NothingAround(t: Text)
    ensures SpellItem(Item([], t, []), []) == Spell(t, [])
  {
    hide Spell;
    var nothing: Bytes := [];
    assert nothing + nothing == nothing;
    assert [] + Spell(t, []) == Spell(t, []);
  }

  /** Printing is injective: two trees with the same text, in the same format, are the same. */
  lemma PrintInjective(v: Json, w: Json, fmt: bool)
    requires Printable(v) && Printable(w) && Print(v, 0, fmt) == Print(w, 0, fmt)
    ensures v == w
  {
    RoundTrip(v, fmt, false);
    RoundTrip(w, fmt, false);
  }
}
