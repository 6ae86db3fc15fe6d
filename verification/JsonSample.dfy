/** A text in the characters of the source language, printed and read: packages/cJSON-v1.0.2/cJSON.c:329-664. */
module JsonSample {
  import opened Utf8
  import opened JsonSpec
  import opened JsonRoundTrip

  predicate IsAscii(s: string) {
    forall i :: 0 <= i < |s| ==> s[i] as int < 128
  }

  function Ascii(s: string): (r: Bytes)
    requires IsAscii(s)
    ensures |r| == |s| && forall i :: 0 <= i < |s| ==> r[i] == s[i] as int
  {
    seq(|s|, i requires 0 <= i < |s| => s[i] as int)
  }

  function Tree(): Json {
    Object([Member(Ascii("a"), Array([Number(-1), True])), Member(Ascii("b"), Null)])
  }

  lemma Item(fmt: bool)
    ensures Printable(Array([Number(-1), True]))
    ensures Print(Array([Number(-1), True]), 1, fmt) == if fmt then Ascii("[-1, true]") else Ascii("[-1,true]")
  {
    var items := [Number(-1), True];
    assert items[1..] == [True] && [True][1..] == [];
    assert Print(Number(-1), 2, fmt) == [45, 49] by {
      assert Digits(1) == [49];
    }
    assert PrintItems([True], 2, fmt) == TRUE_TEXT + [] + [];
    assert PrintItems(items, 2, fmt) == [45, 49] + Separator(fmt) + TRUE_TEXT;
  }

  lemma Name(c: char)
    requires 'a' <= c <= 'z'
    ensures NulFree([c as int]) && Quoted([c as int]) == [34, c as int, 34]
  {
    var s: Bytes := [c as int];
    assert s[1..] == [];
    assert Escape(s) == [c as int];
  }

  lemma Line(c: char, v: Json, text: Bytes, last: bool, fmt: bool)
    requires 'a' <= c <= 'z' && Printable(v) && Print(v, 1, fmt) == text
    ensures NulFree([c as int])
    ensures MemberHead([c as int], 1, fmt) + Print(v, 1, fmt) + MemberTail(last, fmt)
         == (if fmt then [9, 34, c as int, 34, 58, 9] else [34, c as int, 34, 58]) + text
            + if last then (if fmt then [10] else []) else if fmt then [44, 10] else [44]
  {
    Name(c);
    assert Tabs(1) == [9] by {
      assert Tabs(0) == [];
    }
    hide Print, Quoted, Printable, Tabs;
  }

  lemma TwoMembers(m: Member, n: Member, fmt: bool)
    requires NulFree(m.name) && Printable(m.value) && NulFree(n.name) && Printable(n.value)
    ensures PrintMembers([m, n], 1, fmt)
         == MemberHead(m.name, 1, fmt) + Print(m.value, 1, fmt) + MemberTail(false, fmt)
            + (MemberHead(n.name, 1, fmt) + Print(n.value, 1, fmt) + MemberTail(true, fmt))
  {
    hide Print, Printable, NulFree, MemberHead, MemberTail;
    assert [m, n][1..] == [n] && [n][1..] == [];
    assert PrintMembers([n], 1, fmt) == MemberHead(n.name, 1, fmt) + Print(n.value, 1, fmt) + MemberTail(true, fmt);
  }

  lemma Compact()
    ensures [123] + ([34, 97, 34, 58] + Ascii("[-1,true]") + [44] + ([34, 98, 34, 58] + NULL_TEXT)) + [125]
         == Ascii("{\"a\":[-1,true],\"b\":null}")
  {
  }

  lemma Formatted()
    ensures [123] + [10] + ([9, 34, 97, 34, 58, 9] + Ascii("[-1, true]") + [44, 10]
                            + ([9, 34, 98, 34, 58, 9] + NULL_TEXT + [10])) + [125]
         == Ascii("{\n\t\"a\":\t[-1, true],\n\t\"b\":\tnull\n}")
  {
  }

  lemma TreeIs()
    ensures var v := Array([Number(-1), True]);
            Tree() == Object([Member([97], v), Member([98], Null)])
  {
    assert Ascii("a") == [97] && Ascii("b") == [98];
  }

  // Without line ends, and with them
  lemma Body(fmt: bool)
    ensures var ms := Tree().members;
            Printable(Tree()) && forall i :: 0 <= i < |ms| ==> NulFree(ms[i].name) && Printable(ms[i].value)
    ensures PrintMembers(Tree().members, 1, fmt)
            == if fmt then ([9, 34, 97, 34, 58, 9] + Ascii("[-1, true]") + [44, 10]
                            + ([9, 34, 98, 34, 58, 9] + NULL_TEXT + [10]))
               else [34, 97, 34, 58] + Ascii("[-1,true]") + [44] + ([34, 98, 34, 58] + NULL_TEXT)
  {
    TreeIs();
    Item(fmt);
    var v := Array([Number(-1), True]);
    assert Print(Null, 1, fmt) == NULL_TEXT && Printable(Null);
    hide Print, Printable, MemberHead, MemberTail, PrintMembers, Ascii;
    var text := if fmt then Ascii("[-1, true]") else Ascii("[-1,true]");
    Line('a', v, text, false, fmt);
    Line('b', Null, NULL_TEXT, true, fmt);
    TwoMembers(Member([97], v), Member([98], Null), fmt);
    assert Printable(Tree()) by {
      Both(Member([97], v), Member([98], Null));
    }
    assert !fmt ==> [34, 98, 34, 58] + NULL_TEXT + [] == [34, 98, 34, 58] + NULL_TEXT;
  }

  lemma Both(m: Member, n: Member)
    requires NulFree(m.name) && Printable(m.value) && NulFree(n.name) && Printable(n.value)
    ensures Printable(Object([m, n]))
  {
  }

  /** {"a":[-1,true],"b":null}, and the same formatted, is what cJSON_Print makes of that tree. */
  lemma Sample(fmt: bool)
    ensures Printable(Tree())
    ensures Print(Tree(), 0, fmt)
         == if fmt then Ascii("{\n\t\"a\":\t[-1, true],\n\t\"b\":\tnull\n}") else Ascii("{\"a\":[-1,true],\"b\":null}")
  {
    hide *;
    TreeIs();
    Body(fmt);
    Braces(Tree().members, PrintMembers(Tree().members, 1, fmt), fmt);
    if fmt {
      Formatted();
    } else {
      Compact();
      assert [123] + [] == [123];
    }
  }

  lemma Braces(ms: seq<Member>, body: Bytes, fmt: bool)
    requires ms != [] && Printable(Object(ms)) && body == PrintMembers(ms, 1, fmt)
    ensures Print(Object(ms), 0, fmt) == [123] + (if fmt then [10] else []) + body + [125]
  {
    hide PrintMembers;
    assert Tabs(0) == [];
  }

  /** Both texts are read as that tree. */
  lemma SampleRead(fmt: bool, whole: bool)
    ensures ParseText(if fmt then Ascii("{\n\t\"a\":\t[-1, true],\n\t\"b\":\tnull\n}")
                      else Ascii("{\"a\":[-1,true],\"b\":null}"), whole) == Done(Tree(), [])
  {
    hide ParseText, Print, Printable, Ascii;
    Sample(fmt);
    RoundTrip(Tree(), fmt, whole);
  }
}
