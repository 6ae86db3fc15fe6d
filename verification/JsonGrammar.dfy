/** The grammar of sections 2 to 7 of RFC 8259 as the part of the accepted language that has none of its leniencies, and
    what a text of it stands for. The parser of packages/cJSON-v1.0.2/cJSON.c (lines 102-121, 183-256, 326-345, 363-375,
    412-437, 520-553) accepts every text of the grammar, and reads it as what it stands for except for some escapes. */
module JsonGrammar {
  import opened Utf8
  import opened JsonSpec
  import opened JsonString
  import opened JsonLanguage
  import N = JsonNumber

  // ---- the rules ----

  predicate White(ws: Bytes) {
    forall i :: 0 <= i < |ws| ==> ws[i] in {0x20, 0x09, 0x0A, 0x0D}
  }

  // The letter of an escape, and the character it stands for
  const ESCAPES: map<Byte, Byte> :=
    map[0x22 := 0x22, 0x5C := 0x5C, 0x2F := 0x2F, 0x62 := 0x08, 0x66 := 0x0C, 0x6E := 0x0A, 0x72 := 0x0D, 0x74 := 0x09]

  // A byte from 0x80 on belongs to the UTF-8 form of a character
  predicate CharFormed(c: Char) {
    match c
    case Raw(b) => b >= 0x20 && b != 0x22 && b != 0x5C
    case Short(l) => l in ESCAPES
    case Unit(h) => |h| == 4 && Hex4(h)
  }

  predicate CharsFormed(cs: seq<Char>) {
    forall i :: 0 <= i < |cs| ==> CharFormed(cs[i])
  }

  predicate ExpFormed(e: N.Exp) {
    e.Exp? ==> e.letter in {69, 101} && (e.sign == [] || e.sign == [43] || e.sign == [MINUS])
               && e.digits != [] && N.AllDigits(e.digits)
  }

  predicate NumFormed(n: N.Numeral) {
    && n.digits != [] && N.AllDigits(n.digits) && (n.digits[0] == ZERO ==> |n.digits| == 1)
    && N.AllDigits(n.frac) && ExpFormed(n.exp)
  }

  predicate Formed(t: Text) {
    match t
    case Word(v) => v in {Null, True, False}
    case Num(n) => NumFormed(n)
    case Quote(cs) => CharsFormed(cs)
    case Open(_) => false
    case List(gap, items) => White(gap) && (forall i :: 0 <= i < |items| ==> ItemFormed(items[i]))
                             && forall i :: 0 <= i < |items| ==> Formed(items[i].value)
    case Record(gap, es) => White(gap) && (forall i :: 0 <= i < |es| ==> EntryFormed(es[i]))
                            && forall i :: 0 <= i < |es| ==> Formed(es[i].item.value)
  }

  // But for the values, which Formed goes through
  predicate ItemFormed(i: Item) {
    White(i.before) && White(i.after) && !i.value.Open?
  }

  predicate EntryFormed(e: Entry) {
    White(e.before) && CharsFormed(e.name) && White(e.after) && ItemFormed(e.item)
  }

  // ---- what a derivation stands for ----

  // The UTF-8 form of the character; half of a pair that stands alone is taken for the number it names
  function CharMeans(c: Char): Bytes
    requires CharFormed(c)
  {
    match c
    case Raw(b) => [b]
    case Short(l) => [ESCAPES[l]]
    case Unit(h) => Encode(ParseHex4(h))
  }

  function CharsMean(cs: seq<Char>): Bytes
    requires CharsFormed(cs)
  {
    if cs == [] then []
    else if IsPair(cs) then Encode(PairValue(cs[0], cs[1])) + CharsMean(cs[2..])
    else CharMeans(cs[0]) + CharsMean(cs[1..])
  }

  function Means(t: Text): Json
    requires Formed(t)
    decreases t, 1
  {
    match t
    case Word(v) => v
    case Num(n) => NumberItem(N.Exact(n))
    case Quote(cs) => String(CharsMean(cs))
    case List(_, items) => Array(ItemsMean(items))
    case Record(_, es) => Object(EntriesMean(es))
  }

  function ItemsMean(items: seq<Item>): (js: seq<Json>)
    requires forall i :: 0 <= i < |items| ==> Formed(items[i].value)
    ensures |js| == |items|
    decreases items, 0
  {
    if items == [] then [] else [Means(items[0].value)] + ItemsMean(items[1..])
  }

  function EntriesMean(es: seq<Entry>): (ms: seq<Member>)
    requires forall i :: 0 <= i < |es| ==> EntryFormed(es[i])
    requires forall i :: 0 <= i < |es| ==> Formed(es[i].item.value)
    ensures |ms| == |es|
    decreases es, 0
  {
    if es == [] then []
    else
      assert EntryFormed(es[0]);
      [Member(CharsMean(es[0].name), Means(es[0].item.value))] + EntriesMean(es[1..])
  }

  // What C strings can hold: no \u0000, and no half of a surrogate pair alone
  predicate CharsFit(cs: seq<Char>) {
    cs == [] || if IsPair(cs) then CharsFit(cs[2..]) else Kept(cs[0]) && CharsFit(cs[1..])
  }

  predicate Fits(t: Text) {
    match t
    case Quote(cs) => CharsFit(cs)
    case List(_, items) => forall i :: 0 <= i < |items| ==> Fits(items[i].value)
    case Record(_, es) => forall i :: 0 <= i < |es| ==> CharsFit(es[i].name) && Fits(es[i].item.value)
    case _ => true
  }

  // ---- the grammar is part of the language ----

  lemma CharsFormedTaken(cs: seq<Char>)
    requires CharsFormed(cs)
    ensures CharsTaken(cs)
  {
    forall i | 0 <= i < |cs|
      ensures CharTaken(cs[i])
    {
      CharFormedTaken(cs[i]);
    }
  }

  lemma CharFormedTaken(c: Char)
    requires CharFormed(c)
    ensures CharTaken(c)
  {
  }

  /** Every text of the grammar is a text of the language. */
  lemma {:induction false} FormedTaken(t: Text)
    requires Formed(t)
    ensures Taken(t)
  {
    match t
    case Quote(cs) => CharsFormedTaken(cs);
    case List(_, items) =>
      forall i | 0 <= i < |items|
        ensures Taken(items[i].value) && Spaced(items[i])
      {
        FormedTaken(items[i].value);
      }
    case Record(_, es) =>
      forall i | 0 <= i < |es|
        ensures Taken(es[i].item.value) && Named(es[i])
      {
        FormedTaken(es[i].item.value);
        EntryFormedNamed(es[i]);
      }
    case _ =>
  }

  lemma EntryFormedNamed(e: Entry)
    requires EntryFormed(e)
    ensures Named(e)
  {
    CharsFormedTaken(e.name);
  }

  lemma AllFormedTaken(items: seq<Item>)
    requires forall i :: 0 <= i < |items| ==> Formed(items[i].value)
    ensures forall i :: 0 <= i < |items| ==> Taken(items[i].value)
  {
    hide Formed, Taken;
    forall i | 0 <= i < |items|
      ensures Taken(items[i].value)
    {
      FormedTaken(items[i].value);
    }
  }

  lemma EntriesFormedTaken(es: seq<Entry>)
    requires forall i :: 0 <= i < |es| ==> Formed(es[i].item.value)
    ensures forall i :: 0 <= i < |es| ==> Taken(es[i].item.value)
  {
    hide Formed, Taken;
    forall i | 0 <= i < |es|
      ensures Taken(es[i].item.value)
    {
      FormedTaken(es[i].item.value);
    }
  }

  // ---- strings: what is read and what is meant ----

  // A character that is kept is read as what it means
  lemma KeptMeans(c: Char)
    requires CharFormed(c) && Kept(c)
    ensures CharReads(c) == CharMeans(c)
  {
  }

  lemma CharMeansSome(c: Char)
    requires CharFormed(c)
    ensures |CharMeans(c)| > 0
  {
  }

  // The second half alone takes no more bytes than the pair
  lemma HalfMeans(cs: seq<Char>)
    requires CharsFormed(cs) && IsPair(cs)
    ensures |CharMeans(cs[1])| <= |Encode(PairValue(cs[0], cs[1]))| && !IsPair(cs[1..])
  {
    assert CharFormed(cs[1]);
  }

  lemma MeanTail(cs: seq<Char>)
    requires cs != [] && CharsFormed(cs)
    ensures |CharsMean(cs[1..])| <= |CharsMean(cs)|
  {
    hide CharMeans, CharFormed, PairValue;
    if IsPair(cs) {
      HalfMeans(cs);
      assert cs[1..][1..] == cs[2..];
    }
  }

  /** They are read as what they stand for if and only if they fit: else something is missing. */
  lemma {:induction false} CharsReadIff(cs: seq<Char>)
    requires CharsFormed(cs)
    ensures CharsFit(cs) ==> CharsRead(cs) == CharsMean(cs)
    ensures !CharsFit(cs) ==> |CharsRead(cs)| < |CharsMean(cs)|
    ensures |CharsRead(cs)| <= |CharsMean(cs)|
    decreases |cs|
  {
    hide CharMeans, CharReads, CharFormed, Kept, IsHigh, IsLow, PairValue, Encode;
    if cs != [] {
      if IsPair(cs) {
        CharsReadIff(cs[2..]);
      } else {
        CharsReadIff(cs[1..]);
        CharMeansSome(cs[0]);
        if Kept(cs[0]) {
          KeptMeans(cs[0]);
        } else if |cs| > 1 {
          CharsReadIff(cs[2..]);
          MeanTail(cs[1..]);
          assert cs[1..][1..] == cs[2..];
        }
      }
    }
  }

  /** So the literal with the body \ud800\u0041 is read as the empty string: the A is lost. */
  lemma LetterLost(rest: Bytes)
    ensures var cs := [Unit([100, 56, 48, 48]), Unit([48, 48, 52, 49])];
            && CharsFormed(cs) && CharMeans(cs[1]) == [0x41]
            && ParseString(SpellString(cs, rest)) == Done([], rest)
  {
    var cs := [Unit([100, 56, 48, 48]), Unit([48, 48, 52, 49])];
    assert HexValue(100) == 13 && HexValue(56) == 8 && HexValue(48) == 0 && HexValue(52) == 4 && HexValue(49) == 1;
    assert ParseHex4(cs[0].hex) == 0xD800 && ParseHex4(cs[1].hex) == 0x41;
    assert cs[2..] == [];
    hide ParseHex4, ParseString, SpellString;
    CharsFormedTaken(cs);
    NameParses(cs, rest);
  }

  // ---- values: what is read and what is meant ----

  /** A value is read as what it stands for if and only if its escapes fit. */
  lemma {:induction false} ReadsIff(t: Text)
    requires Formed(t)
    ensures Taken(t) && (Reads(t) == Means(t) <==> Fits(t))
    decreases t, 1
  {
    FormedTaken(t);
    match t
    case Quote(cs) => CharsReadIff(cs);
    case List(_, items) => ItemsReadIff(items);
    case Record(_, es) => EntriesReadIff(es);
    case _ =>
  }

  lemma {:induction false} ItemsReadIff(items: seq<Item>)
    requires forall i :: 0 <= i < |items| ==> Formed(items[i].value)
    ensures forall i :: 0 <= i < |items| ==> Taken(items[i].value)
    ensures ItemsRead(items) == ItemsMean(items) <==> forall i :: 0 <= i < |items| ==> Fits(items[i].value)
    decreases items, 0
  {
    hide Formed, Reads, Means, Fits, Taken;
    AllFormedTaken(items);
    if items != [] {
      ReadsIff(items[0].value);
      ItemsReadIff(items[1..]);
      ConsSame(Reads(items[0].value), Means(items[0].value), ItemsRead(items[1..]), ItemsMean(items[1..]));
      assert forall i :: 0 < i < |items| ==> items[i] == items[1..][i - 1];
    }
  }

  lemma {:induction false} EntriesReadIff(es: seq<Entry>)
    requires forall i :: 0 <= i < |es| ==> EntryFormed(es[i])
    requires forall i :: 0 <= i < |es| ==> Formed(es[i].item.value)
    ensures forall i :: 0 <= i < |es| ==> Taken(es[i].item.value)
    ensures EntriesRead(es) == EntriesMean(es)
       <==> forall i :: 0 <= i < |es| ==> CharsFit(es[i].name) && Fits(es[i].item.value)
    decreases es, 0
  {
    hide Formed, Reads, Means, Fits, Taken, CharsFit, CharsRead, CharsMean, CharsFormed;
    EntriesFormedTaken(es);
    if es != [] {
      var e := es[0];
      assert EntryFormed(e);
      CharsReadIff(e.name);
      ReadsIff(e.item.value);
      EntriesReadIff(es[1..]);
      ConsSame(Member(CharsRead(e.name), Reads(e.item.value)), Member(CharsMean(e.name), Means(e.item.value)),
               EntriesRead(es[1..]), EntriesMean(es[1..]));
      assert forall i :: 0 < i < |es| ==> es[i] == es[1..][i - 1];
    }
  }

  lemma ConsSame<T>(a: T, b: T, s: seq<T>, t: seq<T>)
    ensures [a] + s == [b] + t <==> a == b && s == t
  {
    assert ([a] + s)[0] == a && ([b] + t)[0] == b;
    assert ([a] + s)[1..] == s && ([b] + t)[1..] == t;
  }

  // ---- the parser on texts of the grammar ----

  /** The parser accepts every value of the grammar, reads it as Reads says, and stops right behind it. */
  lemma GrammarParses(t: Text, rest: Bytes)
    requires Formed(t) && (t.Num? ==> Delimited(rest))
    ensures Taken(t) && Ends(t, rest) && ParseValue(Spell(t, rest)) == Done(Reads(t), rest)
  {
    FormedTaken(t);
    if t.Num? {
      NumEnds(t.numeral, rest);
    }
    hide Taken, Spell, Reads, ParseValue;
    ValueParses(t, rest);
  }

  /** It reads the value as what it stands for if and only if every escape in it fits. */
  lemma ParsesAsMeantIff(t: Text, rest: Bytes)
    requires Formed(t) && (t.Num? ==> Delimited(rest))
    ensures ParseValue(Spell(t, rest)) == Done(Means(t), rest) <==> Fits(t)
  {
    GrammarParses(t, rest);
    ReadsIff(t);
  }

  /** The same of a literal, such as the name of a member. */
  lemma StringAsMeantIff(cs: seq<Char>, rest: Bytes)
    requires CharsFormed(cs)
    ensures ParseString(SpellString(cs, rest)) == Done(CharsMean(cs), rest) <==> CharsFit(cs)
  {
    CharsFormedTaken(cs);
    NameParses(cs, rest);
    CharsReadIff(cs);
  }

  lemma WhiteDelimited(ws: Bytes, s: Bytes)
    requires White(ws) && Delimited(s)
    ensures Delimited(ws + s)
  {
    if ws == [] {
      assert ws + s == s;
    }
  }

  // Without require_null_terminated the white space behind the value is left over
  lemma GrammarAccepted(i: Item, whole: bool)
    requires ItemFormed(i) && Formed(i.value)
    ensures var (j, rest) := (if whole then i else i.(after := []), if whole then [] else i.after);
            Accepted(j, rest, whole) && SpellItem(j, rest) == SpellItem(i, [])
  {
    hide Spell, Reads, Formed, Taken, Ends;
    var nothing: Bytes := [];
    assert i.after + nothing == i.after && nothing + i.after == i.after;
    assert Delimited(i.after) by {
      WhiteDelimited(i.after, []);
    }
    GrammarParses(i.value, i.after);
  }

  /** JSON-text of section 2: white space, a value, white space. Both ways of calling the parser read it. */
  lemma TextOfGrammar(i: Item, whole: bool)
    requires ItemFormed(i) && Formed(i.value)
    ensures var rest := if whole then [] else i.after;
            && Taken(i.value) && ParseText(SpellItem(i, []), whole) == Done(Reads(i.value), rest)
            && (ParseText(SpellItem(i, []), whole) == Done(Means(i.value), rest) <==> Fits(i.value))
  {
    hide ParseText, ParseValue, SpellItem, Spell, Reads, Means, Formed, Fits, Taken, Ends, Accepted;
    ReadsIff(i.value);
    GrammarAccepted(i, whole);
    TextParses(if whole then i else i.(after := []), if whole then [] else i.after, whole);
  }
}
