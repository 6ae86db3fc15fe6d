/** The growing-buffer printer of packages/cJSON-v1.0.2/cJSON.c (lines 123-151, 351-360, and the p != 0
    branches of lines 153-180, 258-315, 378-409, 440-517 and 556-664). A nested value is written at
    `offset` without moving it; `Update` then finds the end of that text. */
module JsonBuffer {
  import opened Utf8
  import opened JsonSpec
  import opened PowerOfTwo
  import P = JsonPrinter

  const LIMIT: nat := 0x4000_0000

  class PrintBuffer {
    var buffer: array<Byte>
    var length: nat
    var offset: nat

    ghost predicate Valid()
      reads this
    {
      0 < length == buffer.Length && offset <= length
    }

    // What was printed and stepped over
    ghost function Text(): Bytes
      requires Valid()
      reads this, buffer
    {
      buffer[..offset]
    }

    // `t` and a terminator stand behind `pre`; offset has moved over part of `t`
    ghost predicate Written(pre: Bytes, t: Bytes)
      reads this, buffer
    {
      && |pre| <= offset <= |pre| + |t| < buffer.Length
      && buffer[..|pre| + |t|] == pre + t
      && buffer[|pre| + |t|] == 0
    }

    constructor (prebuffer: nat)
      requires prebuffer > 0
      ensures Valid() && fresh(buffer) && offset == 0 && length == prebuffer && Text() == []
    {
      buffer := new Byte[prebuffer];
      length := prebuffer;
      offset := 0;
    }

    /** ensure: room for `needed` bytes behind offset, and nothing printed is lost. */
    method Ensure(needed: nat)
      requires Valid() && offset + needed <= LIMIT
      modifies this
      ensures Valid() && offset + needed <= length && offset == old(offset) && Text() == old(Text())
      ensures buffer == old(buffer) || fresh(buffer)
      ensures length == old(length) || old(length) < length < 2 * (offset + needed)
    {
      if offset + needed <= length {
        return;
      }
      var newsize := Pow2Gt(offset + needed);
      var newbuffer := new Byte[newsize];
      P.Copy(newbuffer, 0, buffer, length);
      assert newbuffer[..length] == buffer[..length];
      assert newbuffer[..offset] == newbuffer[..length][..offset] == buffer[..length][..offset];
      length := newsize;
      buffer := newbuffer;
    }

    // ptr = ensure(p, needed), then the bytes of s and maybe a terminator through ptr
    method Emit(needed: nat, s: Bytes, terminate: bool)
      requires Valid() && offset + needed <= LIMIT
      requires |s| + (if terminate then 1 else 0) <= needed
      modifies this, buffer
      ensures Valid() && offset == old(offset) && (buffer == old(buffer) || fresh(buffer))
      ensures offset + |s| <= length && buffer[..offset + |s|] == old(Text()) + s
      ensures terminate ==> Written(old(Text()), s)
    {
      Ensure(needed);
      P.Store(buffer, offset, s);
      if terminate {
        ghost var text := buffer[..offset + |s|];
        buffer[offset + |s|] := 0;
        assert buffer[..offset + |s|] == text;
      }
    }

    // Emit, and the offset moves over s
    method Put(needed: nat, s: Bytes, terminate: bool)
      requires Valid() && offset + needed <= LIMIT
      requires |s| + (if terminate then 1 else 0) <= needed
      modifies this, buffer
      ensures Valid() && offset == old(offset) + |s| && (buffer == old(buffer) || fresh(buffer))
      ensures Text() == old(Text()) + s
    {
      Emit(needed, s, terminate);
      offset := offset + |s|;
    }

    // The offset as update finds it
    method Update(ghost pre: Bytes, ghost t: Bytes)
      requires Valid() && Written(pre, t) && NulFree(t)
      modifies this`offset
      ensures Valid() && Text() == pre + t
    {
      forall k | offset <= k < |pre| + |t|
        ensures buffer[k] != 0
      {
        assert buffer[k] == buffer[..|pre| + |t|][k] == t[k - |pre|];
      }
      var n := offset;
      while buffer[n] != 0
        invariant offset <= n <= |pre| + |t|
        decreases |pre| + |t| - n
      {
        n := n + 1;
      }
      offset := n;
    }

    // print_string_ptr
    method PrintString(s: Bytes)
      requires Valid() && NulFree(s) && offset + |Quoted(s)| + 1 <= LIMIT
      modifies this, buffer
      ensures Valid() && Written(old(Text()), Quoted(s)) && (buffer == old(buffer) || fresh(buffer))
    {
      hide Escape;
      var flag, len := P.MeasureString(s);
      Ensure(len + 3);
      P.StoreQuoted(buffer, offset, s, flag);
    }

    // print_number in the int range
    method PrintNumber(i: int)
      requires Valid() && INT_MIN <= i <= INT_MAX && offset + 21 <= LIMIT
      modifies this, buffer
      ensures Valid() && Written(old(Text()), IntText(i)) && (buffer == old(buffer) || fresh(buffer))
    {
      P.IntTextFits(i);
      Emit(if i == 0 then 2 else 21, IntText(i), true);
    }

    /** print_value with a print buffer: behind what was there stands the text of the value. */
    method PrintValue(v: Json, depth: nat, fmt: bool)
      requires Valid() && Printable(v) && offset + |Print(v, depth, fmt)| + 21 <= LIMIT
      modifies this, buffer
      ensures Valid() && Written(old(Text()), Print(v, depth, fmt)) && (buffer == old(buffer) || fresh(buffer))
      decreases v, 2
    {
      hide PrintItems, PrintMembers, IntText, Escape;
      match v
      case Null => Emit(5, NULL_TEXT, true);
      case False => Emit(6, FALSE_TEXT, true);
      case True => Emit(5, TRUE_TEXT, true);
      case Number(i) => PrintNumber(i);
      case String(s) => PrintString(s);
      case Array(items) => PrintArray(items, depth, fmt);
      case Object(ms) => PrintObject(ms, depth, fmt);
    }

    // A child, and the offset behind it
    method PrintChild(v: Json, depth: nat, fmt: bool)
      requires Valid() && Printable(v) && offset + |Print(v, depth, fmt)| + 21 <= LIMIT
      modifies this, buffer
      ensures Valid() && Text() == old(Text()) + Print(v, depth, fmt) && (buffer == old(buffer) || fresh(buffer))
      decreases v, 3
    {
      hide Print;
      ghost var pre := Text();
      PrintValue(v, depth, fmt);
      P.PrintNulFree(v, depth, fmt);
      Update(pre, Print(v, depth, fmt));
    }

    method PrintName(s: Bytes)
      requires Valid() && NulFree(s) && offset + |Quoted(s)| + 1 <= LIMIT
      modifies this, buffer
      ensures Valid() && Text() == old(Text()) + Quoted(s) && (buffer == old(buffer) || fresh(buffer))
    {
      hide Quoted;
      ghost var pre := Text();
      PrintString(s);
      P.QuotedNulFree(s);
      Update(pre, Quoted(s));
    }

    // ---- arrays ----

    // The loop of print_array
    method PutItems(items: seq<Json>, depth: nat, fmt: bool)
      requires Valid() && forall k :: 0 <= k < |items| ==> Printable(items[k])
      requires offset + |PrintItems(items, depth, fmt)| + 21 <= LIMIT
      modifies this, buffer
      ensures Valid() && Text() == old(Text()) + PrintItems(items, depth, fmt) &&
          (buffer == old(buffer) || fresh(buffer))
      decreases items, 0
    {
      hide Print, PrintItems, Printable;
      ghost var all := Text() + PrintItems(items, depth, fmt);
      var i := 0;
      assert items[0..] == items;
      while i < |items|
        invariant 0 <= i <= |items| && Valid() && offset <= |all| && (buffer == old(buffer) || fresh(buffer))
        invariant Text() + PrintItems(items[i..], depth, fmt) == all
      {
        var sep := if i + 1 < |items| then Separator(fmt) else [];
        P.ItemsAt(items, i, depth, fmt);
        P.ItemFits(Text(), Print(items[i], depth, fmt), sep, PrintItems(items[i + 1..], depth, fmt));
        assert |all| == offset + |Print(items[i], depth, fmt)| + |sep| + |PrintItems(items[i + 1..], depth, fmt)|;
        PrintChild(items[i], depth, fmt);
        if i + 1 < |items| {
          Put(|sep| + 1, sep, true);
        }
        assert Text() + sep == Text() + (sep + []);
        i := i + 1;
      }
      P.EmptyItems(depth, fmt);
      assert items[i..] == [];
      assert Text() + [] == Text();
    }

    method PrintArray(items: seq<Json>, depth: nat, fmt: bool)
      requires Valid() && forall k :: 0 <= k < |items| ==> Printable(items[k])
      requires offset + |PrintItems(items, depth + 1, fmt)| + 23 <= LIMIT
      modifies this, buffer
      ensures Valid() && Written(old(Text()), [91] + PrintItems(items, depth + 1, fmt) + [93])
      ensures buffer == old(buffer) || fresh(buffer)
      decreases items, 1
    {
      hide PrintItems, Written, Printable;
      P.EmptyItems(depth + 1, fmt);
      if items == [] {
        assert [91] + PrintItems(items, depth + 1, fmt) + [93] == [91, 93];
        Emit(3, [91, 93], true);
        return;
      }
      ghost var pre, body := Text(), PrintItems(items, depth + 1, fmt);
      Put(1, [91], false);
      PutItems(items, depth + 1, fmt);
      Emit(2, [93], true);
      assert pre + [91] + body == pre + ([91] + body);
      WrittenFrom(pre, [91] + body, [93]);
    }

    // ---- objects ----

    // One round of the loop of print_object
    method PutMember(m: Member, last: bool, depth: nat, fmt: bool)
      requires Valid() && NulFree(m.name) && Printable(m.value)
      requires offset + |MemberHead(m.name, depth, fmt)| + |Print(m.value, depth, fmt)| + |MemberTail(last, fmt)| +
          21 <= LIMIT
      modifies this, buffer
      ensures Valid() && (buffer == old(buffer) || fresh(buffer))
      ensures Text() == old(Text()) + (MemberHead(m.name, depth, fmt) + Print(m.value, depth, fmt) +
          MemberTail(last, fmt))
      decreases m.value, 4
    {
      hide Print, MemberHead, MemberTail;
      PutHead(m.name, depth, fmt);
      PrintChild(m.value, depth, fmt);
      var tail := MemberTail(last, fmt);
      Put(|tail| + 1, tail, true);
    }

    method PutHead(name: Bytes, depth: nat, fmt: bool)
      requires Valid() && NulFree(name) && offset + |MemberHead(name, depth, fmt)| + 1 <= LIMIT
      modifies this, buffer
      ensures Valid() && Text() == old(Text()) + MemberHead(name, depth, fmt) &&
          (buffer == old(buffer) || fresh(buffer))
    {
      hide Quoted, Tabs;
      var tabs := if fmt then Tabs(depth) else [];
      var colon := if fmt then [COLON, TAB] else [COLON];
      assert MemberHead(name, depth, fmt) == tabs + Quoted(name) + colon;
      if fmt {
        Put(depth, tabs, false);
      }
      assert Text() == old(Text()) + tabs;
      hide MemberHead;
      PrintName(name);
      Put(|colon|, colon, false);
      assert Text() == old(Text()) + (tabs + Quoted(name) + colon);
    }

    method PutMembers(ms: seq<Member>, depth: nat, fmt: bool)
      requires Valid() && forall k :: 0 <= k < |ms| ==> NulFree(ms[k].name) && Printable(ms[k].value)
      requires offset + |PrintMembers(ms, depth, fmt)| + 21 <= LIMIT
      modifies this, buffer
      ensures Valid() && Text() == old(Text()) + PrintMembers(ms, depth, fmt) &&
          (buffer == old(buffer) || fresh(buffer))
      decreases ms, 0
    {
      hide Print, PrintMembers, MemberHead, MemberTail, Printable, NulFree;
      ghost var all := Text() + PrintMembers(ms, depth, fmt);
      var i := 0;
      assert ms[0..] == ms;
      while i < |ms|
        invariant 0 <= i <= |ms| && Valid() && offset <= |all| && (buffer == old(buffer) || fresh(buffer))
        invariant Text() + PrintMembers(ms[i..], depth, fmt) == all
      {
        var last := i + 1 == |ms|;
        P.MembersAt(ms, i, depth, fmt);
        P.MemberFits(Text(), MemberHead(ms[i].name, depth, fmt), Print(ms[i].value, depth, fmt), MemberTail(last, fmt),
                     PrintMembers(ms[i + 1..], depth, fmt));
        PutMember(ms[i], last, depth, fmt);
        i := i + 1;
      }
      P.EmptyMembers(depth, fmt);
      assert ms[i..] == [];
      assert Text() + [] == Text();
    }

    method PrintObject(ms: seq<Member>, depth: nat, fmt: bool)
      requires Valid() && forall k :: 0 <= k < |ms| ==> NulFree(ms[k].name) && Printable(ms[k].value)
      requires offset + |Print(Object(ms), depth, fmt)| + 21 <= LIMIT
      modifies this, buffer
      ensures Valid() && Written(old(Text()), Print(Object(ms), depth, fmt)) && (buffer == old(buffer) || fresh(buffer))
      decreases ms, 2
    {
      if ms == [] {
        PrintEmptyObject(depth, fmt);
        return;
      }
      hide Print, PrintMembers, Tabs, Written, Printable, NulFree;
      P.ObjectText(ms, depth, fmt);
      var close := (if fmt then Tabs(depth) else []) + [125];
      ghost var pre, body := Text(), PrintMembers(ms, depth + 1, fmt);
      ghost var head := if fmt then [123, NEWLINE] else [123];
      assert Print(Object(ms), depth, fmt) == (head + body) + close;
      PutObject(ms, depth, fmt);
      Emit(if fmt then depth + 2 else 2, close, true);
      WrittenFrom(pre, head + body, close);
    }

    // All of an object but its last line
    method PutObject(ms: seq<Member>, depth: nat, fmt: bool)
      requires Valid() && forall k :: 0 <= k < |ms| ==> NulFree(ms[k].name) && Printable(ms[k].value)
      requires offset + |PrintMembers(ms, depth + 1, fmt)| + 23 <= LIMIT
      modifies this, buffer
      ensures Valid() && (buffer == old(buffer) || fresh(buffer))
      ensures Text() == old(Text()) + ((if fmt then [123, NEWLINE] else [123]) + PrintMembers(ms, depth + 1, fmt))
      decreases ms, 1
    {
      hide Print, PrintMembers, Printable, NulFree;
      var head := if fmt then [123, NEWLINE] else [123];
      Put(|head| + 1, head, true);
      PutMembers(ms, depth + 1, fmt);
    }

    // The last part of a text was left behind offset
    lemma WrittenFrom(pre: Bytes, a: Bytes, b: Bytes)
      requires Valid() && Written(pre + a, b)
      ensures Written(pre, a + b)
    {
      assert pre + (a + b) == (pre + a) + b;
    }

    method PrintEmptyObject(depth: nat, fmt: bool)
      requires Valid() && offset + |Print(Object([]), depth, fmt)| + 21 <= LIMIT
      modifies this, buffer
      ensures Valid() && Written(old(Text()), Print(Object([]), depth, fmt)) && (buffer == old(buffer) || fresh(buffer))
    {
      Emit(if fmt then depth + 4 else 3, Print(Object([]), depth, fmt), true);
    }
  }

  /** cJSON_PrintBuffered: whatever the first size, the text is that of the two-pass printer. */
  method PrintBuffered(v: Json, prebuffer: nat, fmt: bool) returns (out: array<Byte>)
    requires Printable(v) && prebuffer > 0 && |Print(v, 0, fmt)| + 21 <= LIMIT
    ensures fresh(out) && P.CString(out, Print(v, 0, fmt))
  {
    hide Print;
    var p := new PrintBuffer(prebuffer);
    p.PrintValue(v, 0, fmt);
    assert [] + Print(v, 0, fmt) == Print(v, 0, fmt);
    out := p.buffer;
  }

  /** The two printers leave the same C string. */
  method BothPrinters(v: Json, prebuffer: nat, fmt: bool) returns (a: array<Byte>, b: array<Byte>)
    requires Printable(v) && prebuffer > 0 && |Print(v, 0, fmt)| + 21 <= LIMIT
    ensures |Print(v, 0, fmt)| < a.Length && |Print(v, 0, fmt)| < b.Length
    ensures a[..|Print(v, 0, fmt)| + 1] == b[..|Print(v, 0, fmt)| + 1] == Print(v, 0, fmt) + [0]
  {
    hide Print;
    a := P.PrintValue(v, 0, fmt);
    b := PrintBuffered(v, prebuffer, fmt);
  }
}
