/** The language that the parser of packages/cJSON-v1.0.2/cJSON.c accepts (lines 102-121, 183-256, 326-345, 363-375,
    412-437, 520-553), as derivations: each one is read as it says, and no other text is accepted. */
module JsonLanguage {
  import opened Utf8
  import opened JsonSpec
  import opened JsonString
  import N = JsonNumber

  // A value; Open is a string that the end of the text cuts off
  datatype Text =
    | Word(json: Json)
    | Num(numeral: N.Numeral)
    | Quote(chars: seq<Char>)
    | Open(chars: seq<Char>)
    | List(gap: Bytes, items: seq<Item>)
    | Record(gap: Bytes, entries: seq<Entry>)

  // A value between the blanks around it
  datatype Item = Item(before: Bytes, value: Text, after: Bytes)

  datatype Entry = Entry(before: Bytes, name: seq<Char>, after: Bytes, item: Item)

  // ---- the rules ----

  // Any byte from 1 to 32 is a blank
  predicate Blank(s: Bytes) {
    forall i :: 0 <= i < |s| ==> 0 < s[i] <= 32
  }

  predicate Spaced(i: Item) {
    Blank(i.before) && Blank(i.after) && !i.value.Open?
  }

  predicate Named(e: Entry) {
    Blank(e.before) && CharsTaken(e.name) && Blank(e.after) && Spaced(e.item)
  }

  predicate Taken(t: Text) {
    match t
    case Word(v) => v in {Null, True, False}
    case Num(n) => N.Taken(n)
    case Quote(cs) => CharsTaken(cs)
    case Open(cs) => CharsTaken(cs)
    case List(gap, items) => Blank(gap) && (forall i :: 0 <= i < |items| ==> Spaced(items[i]))
                             && forall i :: 0 <= i < |items| ==> Taken(items[i].value)
    case Record(gap, es) => Blank(gap) && (forall i :: 0 <= i < |es| ==> Named(es[i]))
                            && forall i :: 0 <= i < |es| ==> Taken(es[i].item.value)
  }

  // What may follow a value so that it ends there
  predicate Ends(t: Text, rest: Bytes) {
    match t
    case Num(n) => N.Ends(n, rest)
    case Open(_) => Peek(rest) == 0
    case _ => true
  }

  // ---- the text of a derivation, in front of `rest` ----

  function WordText(v: Json): Bytes {
    if v == Null then NULL_TEXT else if v == True then TRUE_TEXT else FALSE_TEXT
  }

  function Spell(t: Text, rest: Bytes): Bytes
    decreases t, 1
  {
    match t
    case Word(v) => WordText(v) + rest
    case Num(n) => N.Spell(n, rest)
    case Quote(cs) => SpellString(cs, rest)
    case Open(cs) => [QUOTE] + SpellChars(cs, rest)
    case List(gap, items) => [91] + (if items == [] then gap + ([93] + rest) else SpellItems(items, rest))
    case Record(gap, es) => [123] + (if es == [] then gap + ([125] + rest) else SpellEntries(es, rest))
  }

  // With the closing bracket
  function SpellItems(items: seq<Item>, rest: Bytes): Bytes
    requires items != []
    decreases items, 0
  {
    SpellItem(items[0], if |items| == 1 then [93] + rest else [COMMA] + SpellItems(items[1..], rest))
  }

  function SpellItem(i: Item, rest: Bytes): Bytes
    decreases i, 2
  {
    i.before + Spell(i.value, i.after + rest)
  }

  // With the closing brace
  function SpellEntries(es: seq<Entry>, rest: Bytes): Bytes
    requires es != []
    decreases es, 0
  {
    var e := es[0];
    e.before + SpellString(e.name, e.after
      + ([COLON] + SpellItem(e.item, if |es| == 1 then [125] + rest else [COMMA] + SpellEntries(es[1..], rest))))
  }

  // ---- what it is read as ----

  function Reads(t: Text): Json
    requires Taken(t)
    decreases t, 1
  {
    match t
    case Word(v) => v
    case Num(n) => NumberItem(N.Exact(n))
    case Quote(cs) => String(CharsRead(cs))
    case Open(cs) => String(CharsRead(cs))
    case List(_, items) => Array(ItemsRead(items))
    case Record(_, es) => Object(EntriesRead(es))
  }

  function ItemsRead(items: seq<Item>): (js: seq<Json>)
    requires forall i :: 0 <= i < |items| ==> Taken(items[i].value)
    ensures |js| == |items|
    decreases items, 0
  {
    if items == [] then [] else [Reads(items[0].value)] + ItemsRead(items[1..])
  }

  function EntriesRead(es: seq<Entry>): (ms: seq<Member>)
    requires forall i :: 0 <= i < |es| ==> Taken(es[i].item.value)
    ensures |ms| == |es|
    decreases es, 0
  {
    if es == [] then []
    else [Member(CharsRead(es[0].name), Reads(es[0].item.value))] + EntriesRead(es[1..])
  }

  // ---- white space ----

  lemma {:induction false} SkipBlank(ws: Bytes, s: Bytes)
    requires Blank(ws)
    ensures Skip(ws + s) == Skip(s)
  {
    if ws == [] {
      assert ws + s == s;
    } else {
      SkipBlank(ws[1..], s);
      assert (ws + s)[1..] == ws[1..] + s;
    }
  }

  lemma SkipTwice(s: Bytes)
    ensures Skip(Skip(s)) == Skip(s)
  {
  }

  // Blanks in front of anything else are skipped
  lemma SkipWhite(ws: Bytes, s: Bytes)
    requires Blank(ws) && (Peek(s) > 32 || Peek(s) == 0)
    ensures Skip(ws + s) == s && Skip(s) == s
  {
    SkipBlank(ws, s);
  }

  // What Skip went over
  lemma {:induction false} Skipped(s: Bytes) returns (ws: Bytes)
    ensures Blank(ws) && s == ws + Skip(s) && (Peek(Skip(s)) > 32 || Peek(Skip(s)) == 0)
  {
    if s != [] && 0 < s[0] <= 32 {
      ws := Skipped(s[1..]);
      ws := [s[0]] + ws;
    } else {
      ws := [];
    }
  }

  // What may follow a number so that it ends there
  predicate Delimited(rest: Bytes) {
    !IsDigit(Peek(rest)) && Peek(rest) != 46 && Peek(rest) != 101 && Peek(rest) != 69
  }

  // A value between others ends where it should
  lemma EndsInside(t: Text, after: Bytes, rest: Bytes)
    requires Taken(t) && !t.Open? && Blank(after) && Peek(rest) in {44, 93, 125}
    ensures Ends(t, after + rest)
  {
    assert Peek(after + rest) <= 32 || after + rest == rest by {
      if after == [] {
        assert after + rest == rest;
      }
    }
    if t.Num? {
      NumEnds(t.numeral, after + rest);
    }
  }

  lemma NumEnds(n: N.Numeral, rest: Bytes)
    requires N.Taken(n) && Delimited(rest)
    requires n.exp.NoExp? || n.exp.digits != [] || (Peek(rest) != 43 && Peek(rest) != MINUS)
    ensures N.Ends(n, rest)
  {
  }

  // ---- each derivation is read as it says ----

  lemma Starts(t: Text, rest: Bytes)
    requires Taken(t) && Ends(t, rest)
    ensures Peek(Spell(t, rest)) > 32 && Peek(Spell(t, rest)) != 93 && Peek(Spell(t, rest)) != 125
  {
    if t.Num? {
      N.NumberParses(t.numeral, rest);
    }
  }

  lemma NotWord(s: Bytes)
    requires Peek(s) != 110 && Peek(s) != 116 && Peek(s) != 102
    ensures !(NULL_TEXT <= s) && !(TRUE_TEXT <= s) && !(FALSE_TEXT <= s)
  {
    HeadDiffers(NULL_TEXT, s);
    HeadDiffers(TRUE_TEXT, s);
    HeadDiffers(FALSE_TEXT, s);
  }

  lemma HeadDiffers(p: Bytes, s: Bytes)
    requires p != [] && (s == [] || s[0] != p[0])
    ensures !(p <= s)
  {
  }

  lemma WordParses(rest: Bytes)
    ensures ParseValue(NULL_TEXT + rest) == Done(Null, rest)
    ensures ParseValue(TRUE_TEXT + rest) == Done(True, rest)
    ensures ParseValue(FALSE_TEXT + rest) == Done(False, rest)
  {
    assert (NULL_TEXT + rest)[4..] == rest && (TRUE_TEXT + rest)[4..] == rest && (FALSE_TEXT + rest)[5..] == rest;
    assert (NULL_TEXT + rest)[0] == 110 && (TRUE_TEXT + rest)[0] == 116 && (FALSE_TEXT + rest)[0] == 102;
    assert NULL_TEXT <= NULL_TEXT + rest && TRUE_TEXT <= TRUE_TEXT + rest && FALSE_TEXT <= FALSE_TEXT + rest;
  }

  // [ and ]
  lemma ArrayParses(v: Bytes)
    ensures ParseValue([91] + v)
         == if Peek(Skip(v)) == 93 then Done(Array([]), Skip(v)[1..])
            else match ParseItems(Skip(v))
                 case Done(items, rest) => Done(Array(items), rest)
                 case Fail => Fail
                 case Unmodelled => Unmodelled
  {
    hide ParseItems, Skip;
    NotWord([91] + v);
    assert ([91] + v)[1..] == v;
  }

  // { and }
  lemma ObjectParses(v: Bytes)
    ensures ParseValue([123] + v)
         == if Peek(Skip(v)) == 125 then Done(Object([]), Skip(v)[1..])
            else match ParseMembers(Skip(v))
                 case Done(ms, rest) => Done(Object(ms), rest)
                 case Fail => Fail
                 case Unmodelled => Unmodelled
  {
    hide ParseMembers, Skip;
    NotWord([123] + v);
    assert ([123] + v)[1..] == v;
  }

  // One step of the loop in parse_array
  lemma ItemStep(s: Bytes, v: Json, tail: Bytes)
    requires ParseValue(Skip(s)) == Done(v, tail)
    ensures ParseItems(Skip(s))
         == if Peek(Skip(tail)) == COMMA then
              match ParseItems(Skip(tail)[1..])
              case Done(vs, rest) => Done([v] + vs, rest)
              case other => other
            else if Peek(Skip(tail)) == 93 then Done([v], Skip(tail)[1..])
            else Fail
    ensures ParseItems(s) == ParseItems(Skip(s))
  {
    hide ParseValue, Skip;
    SkipTwice(s);
  }

  // One step of the loop in parse_object
  lemma MemberStep(s: Bytes, name: Bytes, v: Json, colon: Bytes, tail: Bytes)
    requires ParseString(Skip(s)) == Done(name, colon) && Peek(Skip(colon)) == COLON
    requires ParseValue(Skip(Skip(colon)[1..])) == Done(v, tail)
    ensures ParseMembers(Skip(s))
         == if Peek(Skip(tail)) == COMMA then
              match ParseMembers(Skip(tail)[1..])
              case Done(ms, rest) => Done([Member(name, v)] + ms, rest)
              case other => other
            else if Peek(Skip(tail)) == 125 then Done([Member(name, v)], Skip(tail)[1..])
            else Fail
    ensures ParseMembers(s) == ParseMembers(Skip(s))
  {
    hide ParseValue, ParseString, Skip;
    SkipTwice(s);
  }

  // A value between blanks, in front of a comma, a bracket or a brace
  lemma {:induction false} ItemParses(i: Item, rest: Bytes)
    requires Spaced(i) && Taken(i.value) && Peek(rest) in {44, 93, 125}
    ensures ParseValue(Skip(SpellItem(i, rest))) == Done(Reads(i.value), i.after + rest)
    ensures Skip(i.after + rest) == rest
    ensures Peek(Skip(SpellItem(i, rest))) != 93
    decreases i, 2
  {
    hide ParseValue, Spell, Reads, Skip, Taken, Ends;
    EndsInside(i.value, i.after, rest);
    Starts(i.value, i.after + rest);
    SkipWhite(i.before, Spell(i.value, i.after + rest));
    SkipWhite(i.after, rest);
    ValueParses(i.value, i.after + rest);
  }

  /** The items of an array, up to and including the bracket. */
  lemma {:induction false} ItemsParse(items: seq<Item>, rest: Bytes)
    requires items != [] && forall i :: 0 <= i < |items| ==> Spaced(items[i])
    requires forall i :: 0 <= i < |items| ==> Taken(items[i].value)
    ensures ParseItems(SpellItems(items, rest)) == Done(ItemsRead(items), rest)
    ensures ParseItems(Skip(SpellItems(items, rest))) == Done(ItemsRead(items), rest)
    ensures Peek(Skip(SpellItems(items, rest))) != 93
    decreases items, 0
  {
    hide ParseValue, ParseItems, Skip, SpellItem, Reads, Taken;
    var tail := if |items| == 1 then [93] + rest else [COMMA] + SpellItems(items[1..], rest);
    ItemParses(items[0], tail);
    ItemStep(SpellItem(items[0], tail), Reads(items[0].value), items[0].after + tail);
    if |items| == 1 {
      assert tail[1..] == rest && ItemsRead(items) == [Reads(items[0].value)];
    } else {
      ItemsParse(items[1..], rest);
      assert tail[1..] == SpellItems(items[1..], rest);
    }
  }

  /** The members of an object, up to and including the brace. */
  lemma {:induction false} EntriesParse(es: seq<Entry>, rest: Bytes)
    requires es != [] && forall i :: 0 <= i < |es| ==> Named(es[i])
    requires forall i :: 0 <= i < |es| ==> Taken(es[i].item.value)
    ensures ParseMembers(SpellEntries(es, rest)) == Done(EntriesRead(es), rest)
    ensures ParseMembers(Skip(SpellEntries(es, rest))) == Done(EntriesRead(es), rest)
    ensures Peek(Skip(SpellEntries(es, rest))) != 125
    decreases es, 0
  {
    hide ParseValue, ParseMembers, ParseString, Skip, SpellItem, SpellString, Reads, CharsRead, Taken;
    var e := es[0];
    var tail := if |es| == 1 then [125] + rest else [COMMA] + SpellEntries(es[1..], rest);
    var colon := [COLON] + SpellItem(e.item, tail);
    ItemParses(e.item, tail);
    NameParses(e.name, e.after + colon);
    SkipWhite(e.before, SpellString(e.name, e.after + colon));
    SkipWhite(e.after, colon);
    assert colon[1..] == SpellItem(e.item, tail);
    MemberStep(SpellEntries(es, rest), CharsRead(e.name), Reads(e.item.value), e.after + colon, e.item.after + tail);
    if |es| == 1 {
      assert tail[1..] == rest && EntriesRead(es) == [Member(CharsRead(e.name), Reads(e.item.value))];
    } else {
      EntriesParse(es[1..], rest);
      assert tail[1..] == SpellEntries(es[1..], rest);
    }
  }

  lemma NameParses(cs: seq<Char>, rest: Bytes)
    requires CharsTaken(cs)
    ensures ParseString(SpellString(cs, rest)) == Done(CharsRead(cs), rest) && Peek(SpellString(cs, rest)) == QUOTE
  {
    hide ParseString;
    StringParses(cs, [QUOTE] + rest);
    assert ([QUOTE] + rest)[1..] == rest;
  }

  /** The parser accepts every value of the language, reads it as Reads says, and stops right behind it. */
  lemma {:induction false} ValueParses(t: Text, rest: Bytes)
    requires Taken(t) && Ends(t, rest)
    ensures ParseValue(Spell(t, rest)) == Done(Reads(t), rest)
    decreases t, 1
  {
    match t
    case Word(_) => WordParses(rest);
    case Num(n) => NumParses(n, rest);
    case Quote(cs) => QuoteParses(cs, [QUOTE] + rest, rest);
    case Open(cs) => QuoteParses(cs, rest, rest);
    case List(_, _) => ListParses(t, rest);
    case Record(_, _) => RecordParses(t, rest);
  }

  lemma NumParses(n: N.Numeral, rest: Bytes)
    requires N.Taken(n) && N.Ends(n, rest)
    ensures ParseValue(N.Spell(n, rest)) == Done(NumberItem(N.Exact(n)), rest)
  {
    N.NumberParses(n, rest);
    hide ParseNumber;
    NotWord(N.Spell(n, rest));
  }

  lemma QuoteParses(cs: seq<Char>, end: Bytes, rest: Bytes)
    requires CharsTaken(cs) && (end == [QUOTE] + rest || (end == rest && Peek(rest) == 0))
    ensures ParseValue([QUOTE] + SpellChars(cs, end)) == Done(String(CharsRead(cs)), rest)
  {
    hide ParseString, SpellChars, CharsRead;
    StringParses(cs, end);
    assert ([QUOTE] + rest)[1..] == rest;
    NotWord([QUOTE] + SpellChars(cs, end));
  }

  lemma {:induction false} ListParses(t: Text, rest: Bytes)
    requires t.List? && Taken(t)
    ensures ParseValue(Spell(t, rest)) == Done(Reads(t), rest)
    decreases t, 0
  {
    hide ParseValue, ParseItems, SpellItems, Skip;
    if t.items == [] {
      var end := [93] + rest;
      SkipWhite(t.gap, end);
      ArrayParses(t.gap + end);
      assert end[1..] == rest;
    } else {
      ItemsParse(t.items, rest);
      ArrayParses(SpellItems(t.items, rest));
    }
  }

  lemma {:induction false} RecordParses(t: Text, rest: Bytes)
    requires t.Record? && Taken(t)
    ensures ParseValue(Spell(t, rest)) == Done(Reads(t), rest)
    decreases t, 0
  {
    hide ParseValue, ParseMembers, SpellEntries, Skip;
    if t.entries == [] {
      var end := [125] + rest;
      SkipWhite(t.gap, end);
      ObjectParses(t.gap + end);
      assert end[1..] == rest;
    } else {
      EntriesParse(t.entries, rest);
      ObjectParses(SpellEntries(t.entries, rest));
    }
  }

  // ---- and no other text is accepted ----

  // The derivation of a value that was accepted
  lemma {:induction false} ValueExplained(s: Bytes) returns (t: Text)
    requires ParseValue(s).Done?
    ensures Taken(t) && Ends(t, ParseValue(s).rest) && s == Spell(t, ParseValue(s).rest)
    decreases |s|, 0
  {
    if NULL_TEXT <= s || FALSE_TEXT <= s || TRUE_TEXT <= s {
      t := WordExplained(s);
    } else if Peek(s) == QUOTE {
      t := QuoteExplained(s);
    } else if Peek(s) == MINUS || IsDigit(Peek(s)) {
      hide ParseNumber;
      var n := N.NumberExplained(s);
      t := Num(n);
    } else if Peek(s) == 91 {
      t := ListExplained(s);
    } else {
      t := RecordExplained(s);
    }
  }

  lemma WordExplained(s: Bytes) returns (t: Text)
    requires NULL_TEXT <= s || FALSE_TEXT <= s || TRUE_TEXT <= s
    ensures ParseValue(s).Done? && Taken(t) && t.Word? && s == Spell(t, ParseValue(s).rest)
  {
    t := Word(if NULL_TEXT <= s then Null else if FALSE_TEXT <= s then False else True);
    var w := WordText(t.json);
    assert s == w + s[|w|..];
  }

  lemma QuoteExplained(s: Bytes) returns (t: Text)
    requires Peek(s) == QUOTE && ParseValue(s).Done?
    ensures Taken(t) && Ends(t, ParseValue(s).rest) && s == Spell(t, ParseValue(s).rest)
  {
    NotWord(s);
    hide Unescape, CharsRead, SpellChars, CharsTaken;
    var cs, end := CharsExplained(s[1..]);
    assert s == [QUOTE] + s[1..];
    StringParses(cs, end);
    if Peek(end) == QUOTE {
      assert end == [QUOTE] + end[1..];
      t := Quote(cs);
    } else {
      t := Open(cs);
    }
  }

  lemma {:induction false} ListExplained(s: Bytes) returns (t: Text)
    requires Peek(s) == 91 && ParseValue(s).Done?
    ensures Taken(t) && t.List? && s == Spell(t, ParseValue(s).rest)
    decreases |s|, 0, 0
  {
    hide ParseItems, Skip, SpellItems, Taken;
    var x := s[1..];
    assert s == [91] + x;
    ArrayParses(x);
    if Peek(Skip(x)) == 93 {
      var gap := Skipped(x);
      assert Skip(x) == [93] + Skip(x)[1..];
      t := EmptyList(gap, ParseValue(s).rest);
    } else {
      SkippedItems(x);
      var items := ItemsExplained(x);
      t := FullList(items, ParseValue(s).rest);
    }
  }

  lemma EmptyList(gap: Bytes, rest: Bytes) returns (t: Text)
    requires Blank(gap)
    ensures t.List? && Taken(t) && Spell(t, rest) == [91] + (gap + ([93] + rest))
  {
    t := List(gap, []);
  }

  lemma FullList(items: seq<Item>, rest: Bytes) returns (t: Text)
    requires items != [] && forall i :: 0 <= i < |items| ==> Spaced(items[i])
    requires forall i :: 0 <= i < |items| ==> Taken(items[i].value)
    ensures t.List? && Taken(t) && Spell(t, rest) == [91] + SpellItems(items, rest)
  {
    t := List([], items);
  }

  lemma SkippedItems(x: Bytes)
    ensures ParseItems(Skip(x)) == ParseItems(x)
  {
    hide ParseValue, Skip;
    SkipTwice(x);
  }

  lemma {:induction false} ItemsExplained(x: Bytes) returns (items: seq<Item>)
    requires ParseItems(x).Done?
    ensures items != [] && (forall i :: 0 <= i < |items| ==> Spaced(items[i]))
    ensures forall i :: 0 <= i < |items| ==> Taken(items[i].value)
    ensures x == SpellItems(items, ParseItems(x).rest)
    decreases |x|, 1
  {
    hide ParseValue, Skip, Taken, Spell, Ends;
    var before := Skipped(x);
    var p := Skip(x);
    var t := ValueExplained(p);
    var r := ParseValue(p).rest;
    var after := Skipped(r);
    var r1 := Skip(r);
    NotOpen(t, r);
    var i := Item(before, t, after);
    assert r1 == [r1[0]] + r1[1..];
    if Peek(r1) == COMMA {
      var more := ItemsExplained(r1[1..]);
      items := MoreItems(i, more, ParseItems(x).rest);
    } else {
      items := [i];
    }
  }

  // Behind a string that is cut off nothing follows
  lemma NotOpen(t: Text, r: Bytes)
    requires Ends(t, r) && Peek(Skip(r)) in {44, 93, 125, 58}
    ensures !t.Open?
  {
  }

  lemma MoreItems(i: Item, more: seq<Item>, rest: Bytes) returns (items: seq<Item>)
    requires Spaced(i) && Taken(i.value) && more != [] && forall k :: 0 <= k < |more| ==> Spaced(more[k])
    requires forall k :: 0 <= k < |more| ==> Taken(more[k].value)
    ensures items == [i] + more && (forall k :: 0 <= k < |items| ==> Spaced(items[k]))
    ensures forall k :: 0 <= k < |items| ==> Taken(items[k].value)
    ensures SpellItems(items, rest) == SpellItem(i, [COMMA] + SpellItems(more, rest))
  {
    hide Taken, SpellItem, Spaced;
    items := [i] + more;
    assert items[1..] == more;
  }

  lemma {:induction false} RecordExplained(s: Bytes) returns (t: Text)
    requires Peek(s) == 123 && ParseValue(s).Done?
    ensures Taken(t) && t.Record? && s == Spell(t, ParseValue(s).rest)
    decreases |s|, 0, 0
  {
    hide ParseMembers, Skip, SpellEntries, Taken;
    var x := s[1..];
    assert s == [123] + x;
    ObjectParses(x);
    if Peek(Skip(x)) == 125 {
      var gap := Skipped(x);
      assert Skip(x) == [125] + Skip(x)[1..];
      t := EmptyRecord(gap, ParseValue(s).rest);
    } else {
      SkippedMembers(x);
      var es := EntriesExplained(x);
      t := FullRecord(es, ParseValue(s).rest);
    }
  }

  lemma EmptyRecord(gap: Bytes, rest: Bytes) returns (t: Text)
    requires Blank(gap)
    ensures t.Record? && Taken(t) && Spell(t, rest) == [123] + (gap + ([125] + rest))
  {
    t := Record(gap, []);
  }

  lemma FullRecord(es: seq<Entry>, rest: Bytes) returns (t: Text)
    requires es != [] && forall i :: 0 <= i < |es| ==> Named(es[i])
    requires forall i :: 0 <= i < |es| ==> Taken(es[i].item.value)
    ensures t.Record? && Taken(t) && Spell(t, rest) == [123] + SpellEntries(es, rest)
  {
    t := Record([], es);
  }

  lemma SkippedMembers(x: Bytes)
    ensures ParseMembers(Skip(x)) == ParseMembers(x)
  {
    hide ParseValue, ParseString, Skip;
    SkipTwice(x);
  }

  lemma {:induction false} EntriesExplained(x: Bytes) returns (es: seq<Entry>)
    requires ParseMembers(x).Done?
    ensures es != [] && (forall i :: 0 <= i < |es| ==> Named(es[i]))
    ensures forall i :: 0 <= i < |es| ==> Taken(es[i].item.value)
    ensures x == SpellEntries(es, ParseMembers(x).rest)
    decreases |x|, 2
  {
    hide ParseMember, Skip, Taken, SpellItem, SpellString, Named;
    var tail := ParseMember(x).rest;
    var r1 := Skip(tail);
    assert r1 == [r1[0]] + r1[1..];
    if Peek(r1) == COMMA {
      var more := EntriesExplained(r1[1..]);
      var e := EntryExplained(x, r1);
      es := MoreEntries(e, more, ParseMembers(x).rest);
    } else {
      var e := EntryExplained(x, r1);
      es := [e];
    }
  }

  // One member: a name, a colon and a value
  lemma {:induction false} EntryExplained(x: Bytes, r1: Bytes) returns (e: Entry)
    requires ParseMember(x).Done? && r1 == Skip(ParseMember(x).rest) && Peek(r1) in {44, 93, 125}
    ensures Named(e) && Taken(e.item.value)
    ensures x == e.before + SpellString(e.name, e.after + ([COLON] + SpellItem(e.item, r1)))
    decreases |x|, 1
  {
    hide ParseValue, Skip, Taken, Spell, Ends, Unescape, SpellChars, CharsTaken;
    var before := Skipped(x);
    var p := Skip(x);
    var colon := ParseString(p).rest;
    var cs := NameExplained(p);
    var after := Skipped(colon);
    var c := Skip(colon);
    assert c == [COLON] + c[1..];
    var i := ItemExplained(c[1..], r1);
    e := Entry(before, cs, after, i);
  }

  lemma NameExplained(p: Bytes) returns (cs: seq<Char>)
    requires ParseString(p).Done? && Peek(Skip(ParseString(p).rest)) == COLON
    ensures CharsTaken(cs) && p == SpellString(cs, ParseString(p).rest)
  {
    hide Unescape, CharsRead, SpellChars, CharsTaken;
    var end;
    cs, end := CharsExplained(p[1..]);
    assert p == [QUOTE] + p[1..];
    StringParses(cs, end);
    assert Peek(end) == QUOTE ==> end == [QUOTE] + end[1..];
  }

  lemma {:induction false} ItemExplained(y: Bytes, r1: Bytes) returns (i: Item)
    requires ParseValue(Skip(y)).Done? && r1 == Skip(ParseValue(Skip(y)).rest) && Peek(r1) in {44, 93, 125}
    ensures Spaced(i) && Taken(i.value) && y == SpellItem(i, r1)
    decreases |y|, 1
  {
    hide ParseValue, Skip, Taken, Spell, Ends;
    var before := Skipped(y);
    var t := ValueExplained(Skip(y));
    var r := ParseValue(Skip(y)).rest;
    var after := Skipped(r);
    NotOpen(t, r);
    i := Item(before, t, after);
  }

  lemma MoreEntries(e: Entry, more: seq<Entry>, rest: Bytes) returns (es: seq<Entry>)
    requires Named(e) && Taken(e.item.value) && more != [] && forall k :: 0 <= k < |more| ==> Named(more[k])
    requires forall k :: 0 <= k < |more| ==> Taken(more[k].item.value)
    ensures es == [e] + more && (forall k :: 0 <= k < |es| ==> Named(es[k]))
    ensures forall k :: 0 <= k < |es| ==> Taken(es[k].item.value)
    ensures SpellEntries(es, rest)
         == e.before + SpellString(e.name, e.after + ([COLON] + SpellItem(e.item, [COMMA] + SpellEntries(more, rest))))
  {
    hide Taken, SpellItem, SpellString, Named;
    es := [e] + more;
    assert es[1..] == more;
  }

  /** parse_value accepts exactly the values of this language, and reads each as its derivation says. */
  lemma ValueIff(s: Bytes, v: Json, rest: Bytes)
    ensures ParseValue(s) == Done(v, rest)
       <==> exists t :: Taken(t) && Ends(t, rest) && s == Spell(t, rest) && v == Reads(t)
  {
    hide Taken, Ends, Spell, Reads, ParseValue;
    if ParseValue(s) == Done(v, rest) {
      var t := ValueExplained(s);
      ValueParses(t, rest);
    }
    forall t | Taken(t) && Ends(t, rest) && s == Spell(t, rest)
      ensures ParseValue(s) == Done(Reads(t), rest)
    {
      ValueParses(t, rest);
    }
  }

  // ---- whole texts ----

  // Blanks, a value, and if nothing else may follow, blanks up to the end
  ghost predicate Accepted(i: Item, rest: Bytes, whole: bool) {
    && Blank(i.before) && Blank(i.after) && Taken(i.value) && Ends(i.value, i.after + rest)
    && if whole then Peek(rest) == 0 else i.after == []
  }

  lemma TextParses(i: Item, rest: Bytes, whole: bool)
    requires Accepted(i, rest, whole)
    ensures ParseText(SpellItem(i, rest), whole) == Done(Reads(i.value), rest)
  {
    hide ParseValue, Spell, Reads, Skip, Taken, Ends;
    Starts(i.value, i.after + rest);
    SkipWhite(i.before, Spell(i.value, i.after + rest));
    ValueParses(i.value, i.after + rest);
    if whole {
      SkipWhite(i.after, rest);
    } else {
      assert i.after + rest == rest;
    }
  }

  lemma TextExplained(s: Bytes, whole: bool) returns (i: Item)
    requires ParseText(s, whole).Done?
    ensures Accepted(i, ParseText(s, whole).rest, whole) && s == SpellItem(i, ParseText(s, whole).rest)
  {
    hide ParseValue, Spell, Skip, Taken, Ends;
    var before := Skipped(s);
    var t := ValueExplained(Skip(s));
    var r := ParseValue(Skip(s)).rest;
    if whole {
      var after := Skipped(r);
      i := Item(before, t, after);
    } else {
      assert [] + r == r;
      i := Item(before, t, []);
    }
  }

  /** cJSON_ParseWithOpts accepts exactly these texts; with require_null_terminated nothing but blanks may stand between
      the value and the end. */
  lemma TextIff(s: Bytes, whole: bool, v: Json, rest: Bytes)
    ensures ParseText(s, whole) == Done(v, rest)
       <==> exists i: Item :: Accepted(i, rest, whole) && s == SpellItem(i, rest) && v == Reads(i.value)
  {
    hide SpellItem, Reads, ParseText;
    if ParseText(s, whole) == Done(v, rest) {
      var i := TextExplained(s, whole);
      TextParses(i, rest, whole);
    }
    forall i: Item | Accepted(i, rest, whole) && s == SpellItem(i, rest)
      ensures ParseText(s, whole) == Done(Reads(i.value), rest)
    {
      TextParses(i, rest, whole);
    }
  }
}
