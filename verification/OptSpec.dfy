/** packages/optparse-v1.0.0/optparse.c as data: the words of a command line, what one call finds, and the
    reading of the whole line. A C string is the sequence of its characters in front of the terminator. */
module OptSpec {
  import opened Wrappers

  // optparse_argtype: undeclared, or one of the three kinds of argument
  const UNKNOWN: int := -1
  const NONE: int := 0
  const REQUIRED: int := 1
  const OPTIONAL: int := 2

  const MSG_INVALID: string := "invalid option"
  const MSG_MISSING: string := "option requires an argument"
  const MSG_TOOMANY: string := "option takes no arguments"
  const ERRMSG: nat := 64          // sizeof(errmsg)

  /** struct optparse_long, without the entry that ends the array; '\0' stands for no short name. */
  datatype LongOption = LongOption(longname: Option<string>, shortname: char, argtype: int)

  /** What a call reads by: `optparse` knows short options only. */
  datatype Grammar = Grammar(permute: bool, long: bool, optstring: string, longs: seq<LongOption>)

  /** What a call finds: nothing more, an option, or an error with its message. */
  datatype Found = Done | Yes(opt: char, arg: Option<string>) | No(opt: char, msg: string)

  /** One word read, or a letter of it: what it is, the new subopt, and how many words it uses up. */
  datatype Parsed = Parsed(found: Found, sub: nat, count: nat)

  datatype State = State(args: seq<string>, optind: nat, sub: nat)

  // ---- words ----

  predicate IsDashDash(w: string) {
    w == "--"
  }

  predicate IsShort(w: string) {
    |w| >= 2 && w[0] == '-' && w[1] != '-'
  }

  predicate IsLong(w: string) {
    |w| >= 3 && w[0] == '-' && w[1] == '-'
  }

  // optparse_error, cut off to the buffer
  function Complaint(msg: string, data: string): string {
    var s := msg + " -- '";
    s + (if |s| + |data| <= ERRMSG - 2 then data else if |s| < ERRMSG - 2 then data[..ERRMSG - 2 - |s|] else "") + "'"
  }

  function Find(s: string, c: char): (i: nat)
    ensures i <= |s| && c !in s[..i] && (i < |s| ==> s[i] == c)
  {
    if s == "" || s[0] == c then 0 else
      assert s[..Find(s[1..], c) + 1] == [s[0]] + s[1..][..Find(s[1..], c)];
      Find(s[1..], c) + 1
  }

  function TypeOf(optstring: string, c: char): (t: int)
    ensures t == UNKNOWN || t == NONE || t == REQUIRED || t == OPTIONAL
    ensures t == UNKNOWN <==> c == ':' || c !in optstring
  {
    var i := Find(optstring, c);
    if c == ':' || i == |optstring| then UNKNOWN
    else if i + 1 < |optstring| && optstring[i + 1] == ':' then
      if i + 2 < |optstring| && optstring[i + 2] == ':' then OPTIONAL else REQUIRED
    else NONE
  }

  // The name in "name=argument"
  function NameOf(option: string): string {
    option[..Find(option, '=')]
  }

  function ArgOf(option: string): Option<string> {
    var i := Find(option, '=');
    if i < |option| then Some(option[i + 1..]) else None
  }

  /** "name" and "name=argument" are read back. */
  lemma NameAndArg(name: string, arg: string)
    requires '=' !in name
    ensures NameOf(name) == name && ArgOf(name) == None
    ensures NameOf(name + "=" + arg) == name && ArgOf(name + "=" + arg) == Some(arg)
  {
    FindSkips(name, "", '=');
    FindSkips(name, "=" + arg, '=');
    assert name + "" == name && name + ("=" + arg) == name + "=" + arg;
  }

  // The option of that name, or how many there are
  function FindLong(longs: seq<LongOption>, name: string): (i: nat)
    ensures i <= |longs| && (i < |longs| ==> longs[i].longname == Some(name))
    ensures forall j :: 0 <= j < i ==> longs[j].longname != Some(name)
  {
    if longs == [] || longs[0].longname == Some(name) then 0 else FindLong(longs[1..], name) + 1
  }

  // optparse_from_long
  function FromLong(longs: seq<LongOption>): string {
    if longs == [] then ""
    else if longs[0].shortname == '\0' then FromLong(longs[1..])
    else [longs[0].shortname] + Colons(longs[0].argtype) + FromLong(longs[1..])
  }

  function Colons(n: int): (s: string)
    ensures forall c :: c in s ==> c == ':'
    ensures |s| == if n < 0 then 0 else n
  {
    if n <= 0 then "" else ":" + Colons(n - 1)
  }

  // The argtype of the first entry with that short name
  function ShortType(longs: seq<LongOption>, c: char): int {
    if longs == [] then UNKNOWN else if longs[0].shortname == c then longs[0].argtype else ShortType(longs[1..], c)
  }

  /** The string made from the long options declares each short name with its own kind of argument. */
  lemma {:induction false} FromLongDeclares(longs: seq<LongOption>, c: char)
    requires forall o :: o in longs ==> NONE <= o.argtype <= OPTIONAL && o.shortname != ':'
    requires c != ':' && c != '\0'
    ensures TypeOf(FromLong(longs), c) == ShortType(longs, c)
  {
    if longs != [] {
      hide TypeOf, Colons;
      FromLongDeclares(longs[1..], c);
      var o := longs[0];
      NoColonFirst(longs[1..]);
      if o.shortname != '\0' {
        OneDeclared(o.shortname, o.argtype, FromLong(longs[1..]), c);
      }
    }
  }

  lemma OneDeclared(name: char, t: int, rest: string, c: char)
    requires NONE <= t <= OPTIONAL && name != ':' && c != ':' && (rest != "" ==> rest[0] != ':')
    ensures TypeOf([name] + Colons(t) + rest, c) == if name == c then t else TypeOf(rest, c)
  {
    hide Find, Colons;
    var front := [name] + Colons(t);
    if name != c {
      FindSkips(front, rest, c);
      TypeBehind(front, rest, c);
    } else {
      ColonsAre();
      TypeHere(front + rest, c);
    }
  }

  lemma ColonsAre()
    ensures Colons(0) == "" && Colons(1) == ":" && Colons(2) == "::"
  {
  }

  lemma TypeHere(s: string, c: char)
    requires s != "" && s[0] == c != ':'
    ensures TypeOf(s, c) == if |s| == 1 || s[1] != ':' then NONE else if |s| == 2 || s[2] != ':' then REQUIRED
        else OPTIONAL
  {
  }

  lemma TypeBehind(front: string, rest: string, c: char)
    requires Find(front + rest, c) == |front| + Find(rest, c)
    ensures TypeOf(front + rest, c) == TypeOf(rest, c)
  {
    hide Find;
  }

  lemma FindSkips(front: string, rest: string, c: char)
    requires c !in front
    ensures Find(front + rest, c) == |front| + Find(rest, c)
  {
    if front != "" {
      assert (front + rest)[1..] == front[1..] + rest;
      FindSkips(front[1..], rest, c);
    } else {
      assert front + rest == rest;
    }
  }

  lemma {:induction false} NoColonFirst(longs: seq<LongOption>)
    requires forall o :: o in longs ==> o.shortname != ':'
    ensures FromLong(longs) != "" ==> FromLong(longs)[0] != ':'
  {
    if longs != [] && longs[0].shortname == '\0' {
      NoColonFirst(longs[1..]);
    }
  }

  // ---- one call ----

  // A word that is moved behind the options
  predicate Plain(g: Grammar, w: string) {
    !IsDashDash(w) && !IsShort(w) && !(g.long && IsLong(w))
  }

  // Where the next option or "--" is
  function First(g: Grammar, args: seq<string>, from: nat): (j: nat)
    requires from <= |args|
    ensures from <= j <= |args|
    ensures forall i :: from <= i < j ==> Plain(g, args[i])
    ensures j < |args| ==> !Plain(g, args[j])
    decreases |args| - from
  {
    if from == |args| || !Plain(g, args[from]) then from else First(g, args, from + 1)
  }

  // Letter i of a word of short options
  function Letter(g: Grammar, w: string, i: nat, next: Option<string>): (p: Parsed)
    requires i > 0
    ensures p.found != Done
    ensures p.count <= if next == None then 1 else 2
    ensures p.count == 0 ==> p.sub == i && i + 1 < |w|
  {
    var c := if i < |w| then w[i] else '\0';
    var rest := if i + 1 < |w| then Some(w[i + 1..]) else None;
    var t := TypeOf(g.optstring, c);
    if t == UNKNOWN then Parsed(No(c, Complaint(MSG_INVALID, if c == '\0' then "" else [c])), i - 1, 1)
    else if t == NONE then
      if rest == None then Parsed(Yes(c, None), 0, 1) else Parsed(Yes(c, None), i, 0)
    else if t == OPTIONAL || rest != None then Parsed(Yes(c, rest), 0, 1)
    else if next != None then Parsed(Yes(c, next), 0, 2)
    else Parsed(No(c, Complaint(MSG_MISSING, [c])), 0, 1)
  }

  // A word of one long option
  function Long(g: Grammar, w: string, sub: nat, next: Option<string>): (p: Parsed)
    requires IsLong(w)
    ensures p.found != Done
    ensures 0 < p.count <= if next == None then 1 else 2
  {
    var option := w[2..];
    var i, arg := FindLong(g.longs, NameOf(option)), ArgOf(option);
    if i == |g.longs| then Parsed(No('\0', Complaint(MSG_INVALID, option)), sub, 1)
    else
      var o := g.longs[i];
      if o.argtype == NONE && arg != None then Parsed(No(o.shortname, Complaint(MSG_TOOMANY, NameOf(option))), sub, 1)
      else if arg != None || o.argtype != REQUIRED then Parsed(Yes(o.shortname, arg), sub, 1)
      else if next != None then Parsed(Yes(o.shortname, next), sub, 2)
      else Parsed(No(o.shortname, Complaint(MSG_MISSING, NameOf(option))), sub, 1)
  }

  function Parse(g: Grammar, w: string, sub: nat, next: Option<string>): (p: Parsed)
    requires !Plain(g, w) && !IsDashDash(w)
    ensures p.found != Done
    ensures p.count <= if next == None then 1 else 2
    ensures p.count == 0 ==> IsShort(w) && p.sub == sub + 1 && p.sub + 1 < |w|
  {
    if IsShort(w) then Letter(g, w, sub + 1, next) else Long(g, w, sub, next)
  }

  function Next(args: seq<string>, j: nat): Option<string> {
    if j + 1 < |args| then Some(args[j + 1]) else None
  }

  // The c words from j on, moved in front of those from o on
  function Rotate(args: seq<string>, o: nat, j: nat, c: nat): (r: seq<string>)
    requires o <= j && j + c <= |args|
    ensures |r| == |args|
  {
    args[..o] + args[j..j + c] + args[o..j] + args[j + c..]
  }

  /** optparse and optparse_long: the state after a call, and what the call finds. */
  function Call(g: Grammar, s: State): (r: (State, Found))
    requires s.optind <= |s.args|
    ensures |r.0.args| == |s.args| && s.optind <= r.0.optind <= |s.args|
  {
    var o := s.optind;
    var j := First(g, s.args, o);
    if j == |s.args| || (j > o && !g.permute) then (s, Done)
    else if IsDashDash(s.args[j]) then (State(Rotate(s.args, o, j, 1), o + 1, s.sub), Done)
    else
      var p := Parse(g, s.args[j], s.sub, Next(s.args, j));
      (State(Rotate(s.args, o, j, p.count), o + p.count, p.sub), p.found)
  }

  // ---- the calls that skip a plain word ----

  // optparse_permute
  function Shift(args: seq<string>, index: nat, optind: nat): (r: seq<string>)
    requires index < optind <= |args|
  {
    args[..index] + args[index + 1..optind] + [args[index]] + args[optind..]
  }

  // The move done one step at a time
  lemma ShiftIs(was: seq<string>, now: seq<string>, index: nat, optind: nat)
    requires index < optind <= |was| && |now| == |was| && now[..index] == was[..index] &&
        now[index..optind - 1] == was[index + 1..optind]
    requires now[optind - 1] == was[index] && now[optind..] == was[optind..]
    ensures now == Shift(was, index, optind)
  {
    assert now == now[..index] + now[index..optind - 1] + [now[optind - 1]] + now[optind..];
  }

  lemma FromLongFirst(longs: seq<LongOption>, i: nat)
    requires i < |longs|
    ensures var o := longs[i];
            FromLong(longs[i..]) == (if o.shortname == '\0' then "" else [o.shortname] + Colons(o.argtype)) +
                FromLong(longs[i + 1..])
  {
    assert longs[i..][1..] == longs[i + 1..];
  }

  /** The recursive call behind a plain word, and the move of that word, make one call. */
  lemma SkipPlain(g: Grammar, s: State)
    requires s.optind < |s.args| && Plain(g, s.args[s.optind]) && g.permute
    ensures var (t, f) := Call(g, s.(optind := s.optind + 1));
            t.optind > s.optind && Call(g, s) == (State(Shift(t.args, s.optind, t.optind), t.optind - 1, t.sub), f)
  {
    hide Parse, Plain, Shift, Rotate, IsDashDash;
    var o := s.optind;
    var j := First(g, s.args, o + 1);
    assert First(g, s.args, o) == j;
    ShiftNone(s.args, o);
    if j < |s.args| {
      if IsDashDash(s.args[j]) {
        ShiftRotate(s.args, o, j, 1);
      } else {
        ShiftRotate(s.args, o, j, Parse(g, s.args[j], s.sub, Next(s.args, j)).count);
      }
    }
  }

  lemma ShiftNone(args: seq<string>, o: nat)
    requires o < |args|
    ensures Shift(args, o, o + 1) == args
  {
  }

  lemma ShiftRotate(args: seq<string>, o: nat, j: nat, c: nat)
    requires o < j && j + c <= |args|
    ensures Shift(Rotate(args, o + 1, j, c), o, o + 1 + c) == Rotate(args, o, j, c)
  {
    var r := Rotate(args, o + 1, j, c);
    assert r[..o] == args[..o] && r[o] == args[o];
    assert r[o + 1..o + 1 + c] == args[j..j + c];
    assert r[o + 1 + c..] == args[o + 1..j] + args[j + c..];
    assert [args[o]] + args[o + 1..j] == args[o..j];
  }

  lemma RotateHere(args: seq<string>, o: nat, n: nat)
    requires o + n <= |args|
    ensures Rotate(args, o, o, n) == args
  {
    assert args == args[..o] + args[o..o + n] + args[o + n..];
  }

  // The word at optind is the one to read
  lemma CallHere(g: Grammar, s: State)
    requires s.optind < |s.args| && !Plain(g, s.args[s.optind]) && !IsDashDash(s.args[s.optind])
    ensures var p := Parse(g, s.args[s.optind], s.sub, Next(s.args, s.optind));
            Call(g, s) == (State(s.args, s.optind + p.count, p.sub), p.found)
  {
    hide Parse, Plain;
    var o, n := s.optind, Parse(g, s.args[s.optind], s.sub, Next(s.args, s.optind)).count;
    RotateHere(s.args, o, n);
  }

  lemma ParseShort(g: Grammar, w: string, sub: nat, next: Option<string>)
    requires IsShort(w)
    ensures Parse(g, w, sub, next) == Letter(g, w, sub + 1, next)
  {
  }

  // Nothing to read: the end, "--", or a plain word that may not be passed over
  lemma CallStops(g: Grammar, s: State)
    requires s.optind <= |s.args|
    ensures s.optind == |s.args| ==> Call(g, s) == (s, Done)
    ensures s.optind < |s.args| && IsDashDash(s.args[s.optind]) ==> Call(g, s) == (s.(optind := s.optind + 1), Done)
    ensures s.optind < |s.args| && Plain(g, s.args[s.optind]) && !g.permute ==> Call(g, s) == (s, Done)
  {
    hide Parse;
    if s.optind < |s.args| {
      var o := s.optind;
      RotateHere(s.args, o, 1);
    }
  }

  // ---- what optparse_long adds ----

  lemma {:induction false} FromLongString(longs: seq<LongOption>)
    ensures '\0' !in FromLong(longs)
  {
    if longs != [] {
      FromLongString(longs[1..]);
    }
  }

  /** A short word is read alike by both. */
  lemma SameShort(g: Grammar, g': Grammar, s: State)
    requires g.optstring == g'.optstring && s.optind < |s.args| && IsShort(s.args[s.optind])
    ensures Call(g, s) == Call(g', s)
  {
    CallHere(g, s);
    CallHere(g', s);
    SameLetter(g, g', s.args[s.optind], s.sub, Next(s.args, s.optind));
    hide *;
  }

  lemma SameLetter(g: Grammar, g': Grammar, w: string, sub: nat, next: Option<string>)
    requires g.optstring == g'.optstring && IsShort(w)
    ensures Parse(g, w, sub, next) == Parse(g', w, sub, next)
  {
    hide TypeOf, Complaint;
  }

  // The last entry of that short name, or -1
  function LastShort(longs: seq<LongOption>, c: char): (i: int)
    ensures -1 <= i < |longs| && (i >= 0 ==> longs[i].shortname == c)
    ensures forall j :: i < j < |longs| ==> longs[j].shortname != c
  {
    var n := |longs|;
    if n == 0 then -1 else if longs[n - 1].shortname == c then n - 1 else LastShort(longs[..n - 1], c)
  }

  /** What *longindex is after a call: the entry that was found, -1 for an unknown letter, or what it was. */
  function LongIndex(g: Grammar, s: State, before: int): int
    requires s.optind <= |s.args|
  {
    var j := First(g, s.args, s.optind);
    if j == |s.args| || IsDashDash(s.args[j]) || (j > s.optind && !g.permute) then before
    else if IsShort(s.args[j]) then LastShort(g.longs, Parse(g, s.args[j], s.sub, Next(s.args, j)).found.opt)
    else
      var i := FindLong(g.longs, NameOf(s.args[j][2..]));
      if i < |g.longs| then i else before
  }

  // ---- calls until -1 ----

  // How much of the current word is still to be read
  function Ahead(g: Grammar, s: State): nat
    requires s.optind <= |s.args|
  {
    var j := First(g, s.args, s.optind);
    if j < |s.args| && |s.args[j]| > s.sub then |s.args[j]| - s.sub else 0
  }

  /** Calls until one returns -1: what they found, and the state at the end. */
  function Run(g: Grammar, s: State): (r: (seq<Found>, State))
    requires s.optind <= |s.args|
    ensures |r.1.args| == |s.args| && s.optind <= r.1.optind <= |s.args|
    decreases |s.args| - s.optind, Ahead(g, s)
  {
    var (t, f) := Call(g, s);
    if f == Done then ([], t) else
      CallAdvances(g, s);
      var (fs, u) := Run(g, t);
      ([f] + fs, u)
  }

  lemma CallAdvances(g: Grammar, s: State)
    requires s.optind <= |s.args| && Call(g, s).1 != Done
    ensures var t := Call(g, s).0; t.optind > s.optind || (t.optind == s.optind && Ahead(g, t) < Ahead(g, s))
  {
    RotateNone(s.args, s.optind, First(g, s.args, s.optind));
  }

  lemma RotateNone(args: seq<string>, o: nat, j: nat)
    requires o <= j <= |args|
    ensures Rotate(args, o, j, 0) == args
  {
  }

  // ---- the line read from left to right, where nothing moves ----

  /** What is found, and for each word whether it belongs to the options (or is the "--" that ends them). */
  datatype Reading = Reading(found: seq<Found>, marks: seq<bool>)

  // The letters of a word from i on, and the words used up
  function Letters(g: Grammar, w: string, i: nat, next: Option<string>): (r: (seq<Found>, nat))
    requires i > 0
    ensures 0 < r.1 <= if next == None then 1 else 2
    decreases |w| - i
  {
    var p := Letter(g, w, i, next);
    if p.count > 0 then ([p.found], p.count)
    else
      var (fs, n) := Letters(g, w, i + 1, next);
      ([p.found] + fs, n)
  }

  // What subopt is behind them
  function LettersLeave(g: Grammar, w: string, i: nat, next: Option<string>): nat
    requires i > 0
    decreases |w| - i
  {
    var p := Letter(g, w, i, next);
    if p.count > 0 then p.sub else LettersLeave(g, w, i + 1, next)
  }

  function WordLeaves(g: Grammar, w: string, sub: nat, next: Option<string>): nat
    requires !Plain(g, w) && !IsDashDash(w)
  {
    if IsShort(w) then LettersLeave(g, w, sub + 1, next) else sub
  }

  function Word(g: Grammar, w: string, sub: nat, next: Option<string>): (r: (seq<Found>, nat))
    requires !Plain(g, w) && !IsDashDash(w)
    ensures 0 < r.1 <= if next == None then 1 else 2
  {
    if IsShort(w) then Letters(g, w, sub + 1, next)
    else
      var p := Long(g, w, sub, next);
      ([p.found], p.count)
  }

  function Repeat(b: bool, n: nat): (m: seq<bool>)
    ensures |m| == n && forall i :: 0 <= i < n ==> m[i] == b
  {
    if n == 0 then [] else [b] + Repeat(b, n - 1)
  }

  /** With `carry` every word is read as the calls do, from where subopt was left; else each word but the first is read
      from its first letter. */
  function Read(g: Grammar, ws: seq<string>, sub: nat, carry: bool): (r: Reading)
    ensures |r.marks| == |ws|
    decreases |ws|
  {
    if ws == [] then Reading([], [])
    else if Plain(g, ws[0]) then
      var r := Read(g, ws[1..], sub, carry);
      Reading(r.found, [false] + r.marks)
    else if IsDashDash(ws[0]) then Reading([], [true] + Repeat(false, |ws| - 1))
    else
      var (fs, n) := Word(g, ws[0], sub, Next(ws, 0));
      var r := Read(g, ws[n..], if carry then WordLeaves(g, ws[0], sub, Next(ws, 0)) else 0, carry);
      Reading(fs + r.found, Repeat(true, n) + r.marks)
  }

  // The words with that mark, in order
  function Pick(ws: seq<string>, marks: seq<bool>, b: bool): seq<string>
    requires |ws| == |marks|
  {
    if ws == [] then [] else (if marks[0] == b then [ws[0]] else []) + Pick(ws[1..], marks[1..], b)
  }

  // No word of short options is read
  predicate NoShort(g: Grammar, ws: seq<string>)
    decreases |ws|
  {
    if ws == [] || IsDashDash(ws[0]) then true
    else if Plain(g, ws[0]) then NoShort(g, ws[1..])
    else !IsShort(ws[0]) && NoShort(g, ws[Long(g, ws[0], 0, Next(ws, 0)).count..])
  }

  /** No undeclared letter stands behind another letter of its word, but in the last word of short options:
      `subopt` survives such a letter. */
  predicate Declared(g: Grammar, ws: seq<string>, sub: nat)
    decreases |ws|
  {
    if ws == [] || IsDashDash(ws[0]) then true
    else if Plain(g, ws[0]) then Declared(g, ws[1..], sub)
    else
      var rest := ws[Word(g, ws[0], sub, Next(ws, 0)).1..];
      if WordLeaves(g, ws[0], sub, Next(ws, 0)) == 0 then Declared(g, rest, 0) else NoShort(g, rest)
  }

  // ---- what a call does to the reading ----

  lemma PickAll(ws: seq<string>, b: bool, c: bool)
    ensures Pick(ws, Repeat(b, |ws|), c) == if b == c then ws else []
  {
    if ws != [] {
      PickAll(ws[1..], b, c);
      assert Repeat(b, |ws|)[1..] == Repeat(b, |ws| - 1);
    }
  }

  lemma PickHead(ws: seq<string>, ms: seq<bool>, b: bool)
    requires |ws| == |ms| > 0
    ensures Pick(ws, ms, b) == (if ms[0] == b then [ws[0]] else []) + Pick(ws[1..], ms[1..], b)
  {
  }

  lemma {:induction false} PickConcat(ws: seq<string>, xs: seq<string>, ms: seq<bool>, ns: seq<bool>, b: bool)
    requires |ws| == |ms| && |xs| == |ns|
    ensures Pick(ws + xs, ms + ns, b) == Pick(ws, ms, b) + Pick(xs, ns, b)
  {
    if ws == [] {
      assert ws + xs == xs && ms + ns == ns;
    } else {
      PickConcat(ws[1..], xs, ms[1..], ns, b);
      PickHead(ws, ms, b);
      PickHead(ws + xs, ms + ns, b);
      hide Pick;
      assert (ws + xs)[1..] == ws[1..] + xs && (ms + ns)[1..] == ms[1..] + ns;
    }
  }

  predicate AllPlain(g: Grammar, ws: seq<string>) {
    forall i :: 0 <= i < |ws| ==> Plain(g, ws[i])
  }

  lemma ReadFirst(g: Grammar, w: string, ws: seq<string>, sub: nat, carry: bool)
    requires Plain(g, w)
    ensures var r := Read(g, ws, sub, carry); Read(g, [w] + ws, sub, carry) == Reading(r.found, [false] + r.marks)
    ensures Declared(g, [w] + ws, sub) == Declared(g, ws, sub)
  {
    hide Word, WordLeaves;
    assert ([w] + ws)[1..] == ws;
  }

  // Plain words in front
  lemma {:induction false} ReadPlain(g: Grammar, ps: seq<string>, ws: seq<string>, sub: nat, carry: bool)
    requires AllPlain(g, ps)
    ensures var r := Read(g, ws, sub, carry);
            Read(g, ps + ws, sub, carry) == Reading(r.found, Repeat(false, |ps|) + r.marks)
    ensures Declared(g, ps + ws, sub) == Declared(g, ws, sub)
  {
    hide Read, Declared, Plain;
    if ps == [] {
      assert ps + ws == ws;
    } else {
      ReadPlain(g, ps[1..], ws, sub, carry);
      ReadFirst(g, ps[0], ps[1..] + ws, sub, carry);
      assert ps + ws == [ps[0]] + (ps[1..] + ws);
    }
  }

  // The words picked when plain words stand in front
  lemma PickPlain(g: Grammar, ps: seq<string>, ws: seq<string>, sub: nat)
    requires AllPlain(g, ps)
    ensures Pick(ps + ws, Read(g, ps + ws, sub, true).marks, true) == Pick(ws, Read(g, ws, sub, true).marks, true)
    ensures Pick(ps + ws, Read(g, ps + ws, sub, true).marks, false) == ps +
        Pick(ws, Read(g, ws, sub, true).marks, false)
  {
    ReadPlain(g, ps, ws, sub, true);
    var ms := Read(g, ws, sub, true).marks;
    PickConcat(ps, ws, Repeat(false, |ps|), ms, true);
    PickConcat(ps, ws, Repeat(false, |ps|), ms, false);
    PickAll(ps, false, true);
    PickAll(ps, false, false);
  }

  // A leftover subopt does not matter where no word of short options is read
  lemma {:induction false} StaleReads(g: Grammar, ws: seq<string>, sub: nat)
    requires NoShort(g, ws)
    ensures Read(g, ws, sub, true) == Read(g, ws, 0, false) && Declared(g, ws, sub)
    decreases |ws|
  {
    if ws == [] || IsDashDash(ws[0]) {
    } else if Plain(g, ws[0]) {
      StaleReads(g, ws[1..], sub);
    } else {
      SubUnused(g, ws[0], sub, Next(ws, 0));
      hide Long;
      var rest := ws[Long(g, ws[0], 0, Next(ws, 0)).count..];
      StaleReads(g, rest, sub);
      StaleReads(g, rest, 0);
    }
  }

  lemma SubUnused(g: Grammar, w: string, sub: nat, next: Option<string>)
    requires IsLong(w)
    ensures var p := Long(g, w, sub, next); p.sub == sub && p == Long(g, w, 0, next).(sub := sub)
  {
  }

  lemma LongOtherwise(g: Grammar, w: string)
    requires !Plain(g, w) && !IsDashDash(w) && !IsShort(w)
    ensures IsLong(w)
  {
  }

  // One word, or one letter, read off the front of the line
  lemma ReadOne(g: Grammar, ws: seq<string>, sub: nat)
    requires ws != [] && !Plain(g, ws[0]) && !IsDashDash(ws[0])
    ensures var p := Parse(g, ws[0], sub, Next(ws, 0));
            && p.count <= |ws|
            && var r := Read(g, ws[p.count..], p.sub, true);
            Read(g, ws, sub, true) == Reading([p.found] + r.found, Repeat(true, p.count) + r.marks)
  {
    hide Letter, Long, Plain;
    var next := Next(ws, 0);
    var p := Parse(g, ws[0], sub, next);
    if p.count == 0 {
      assert ws[p.count..] == ws;
    } else if !IsShort(ws[0]) {
      LongOtherwise(g, ws[0]);
      SubUnused(g, ws[0], sub, next);
    }
  }

  // The words in front of the first option or "--"
  lemma Passed(g: Grammar, args: seq<string>, o: nat, j: nat)
    requires o <= j <= |args| && forall i :: o <= i < j ==> Plain(g, args[i])
    ensures AllPlain(g, args[o..j]) && args[o..] == args[o..j] + args[j..]
  {
  }

  // The line, read from a state
  function Rest(g: Grammar, s: State): Reading
    requires s.optind <= |s.args|
  {
    Read(g, s.args[s.optind..], s.sub, true)
  }

  // The words that a run leaves: options in front, then everything else
  function Sorted(g: Grammar, s: State): (ws: seq<string>)
    requires s.optind <= |s.args|
  {
    var tail := s.args[s.optind..];
    s.args[..s.optind] + Pick(tail, Rest(g, s).marks, true) + Pick(tail, Rest(g, s).marks, false)
  }

  function Options(g: Grammar, s: State): (n: nat)
    requires s.optind <= |s.args|
  {
    s.optind + |Pick(s.args[s.optind..], Rest(g, s).marks, true)|
  }

  lemma RotateParts(args: seq<string>, o: nat, j: nat, c: nat)
    requires o <= j && j + c <= |args|
    ensures Rotate(args, o, j, c)[..o + c] == args[..o] + args[j..j + c]
    ensures Rotate(args, o, j, c)[o + c..] == args[o..j] + args[j + c..]
  {
  }

  // The same, when plain words stand in front
  lemma SortedAt(g: Grammar, s: State, ps: seq<string>, ws: seq<string>)
    requires s.optind <= |s.args| && s.args[s.optind..] == ps + ws && AllPlain(g, ps)
    ensures var r := Read(g, ws, s.sub, true);
            && Rest(g, s).found == r.found
            && Options(g, s) == s.optind + |Pick(ws, r.marks, true)|
            && Sorted(g, s) == s.args[..s.optind] + Pick(ws, r.marks, true) + (ps + Pick(ws, r.marks, false))
  {
    hide Read, Declared, Pick, Plain;
    ReadPlain(g, ps, ws, s.sub, true);
    PickPlain(g, ps, ws, s.sub);
  }

  /** A call takes one item off the reading of the line and sorts nothing differently. */
  lemma CallReads(g: Grammar, s: State)
    requires s.optind <= |s.args| && g.permute && Call(g, s).1 != Done
    ensures var (t, f) := Call(g, s);
            Rest(g, s).found == [f] + Rest(g, t).found && Sorted(g, s) == Sorted(g, t) && Options(g, s) == Options(g, t)
  {
    hide *;
    var (args, o, sub) := (s.args, s.optind, s.sub);
    var j := CallFinds(g, s);
    Passed(g, args, o, j);
    var ps, ws := args[o..j], args[j..];
    SortedAt(g, s, ps, ws);
    NextAt(args, j);
    var p := Parse(g, args[j], sub, Next(args, j));
    ReadOne(g, ws, sub);
    var n := p.count;
    var xs := ws[n..];
    RotateParts(args, o, j, n);
    Slices(args, j, n);
    SortedAt(g, Call(g, s).0, ps, xs);
    var ms := Read(g, xs, p.sub, true).marks;
    PickFront(ws, n, ms);
    Assoc(args[..o], ws[..n], Pick(xs, ms, true), ps + Pick(xs, ms, false));
  }

  // The word that a call reads
  lemma CallFinds(g: Grammar, s: State) returns (j: nat)
    requires s.optind <= |s.args| && Call(g, s).1 != Done
    ensures s.optind <= j < |s.args| && (forall i :: s.optind <= i < j ==> Plain(g, s.args[i]))
    ensures !Plain(g, s.args[j]) && !IsDashDash(s.args[j])
    ensures var p := Parse(g, s.args[j], s.sub, Next(s.args, j));
            && j + p.count <= |s.args|
            && Call(g, s) == (State(Rotate(s.args, s.optind, j, p.count), s.optind + p.count, p.sub), p.found)
  {
    j := First(g, s.args, s.optind);
  }

  // An error has a message, so that errmsg tells it from an option
  lemma CallMessage(g: Grammar, s: State)
    requires s.optind <= |s.args| && Call(g, s).1.No?
    ensures Call(g, s).1.msg != ""
  {
    hide *;
    var j := CallFinds(g, s);
    ParseMessage(g, s.args[j], s.sub, Next(s.args, j));
  }

  lemma ParseMessage(g: Grammar, w: string, sub: nat, next: Option<string>)
    requires !Plain(g, w) && !IsDashDash(w) && Parse(g, w, sub, next).found.No?
    ensures Parse(g, w, sub, next).found.msg != ""
  {
    hide TypeOf, FindLong, Find;
  }

  lemma NextAt(args: seq<string>, j: nat)
    requires j < |args|
    ensures args[j..][0] == args[j] && Next(args[j..], 0) == Next(args, j)
  {
  }

  lemma Slices(args: seq<string>, j: nat, n: nat)
    requires j + n <= |args|
    ensures args[j..][..n] == args[j..j + n] && args[j..][n..] == args[j + n..]
  {
  }

  lemma Assoc(a: seq<string>, b: seq<string>, c: seq<string>, d: seq<string>)
    ensures a + (b + c) + d == a + b + c + d
  {
  }

  lemma PickFront(ws: seq<string>, n: nat, ms: seq<bool>)
    requires n <= |ws| && |ms| == |ws| - n
    ensures Pick(ws, Repeat(true, n) + ms, true) == ws[..n] + Pick(ws[n..], ms, true)
    ensures Pick(ws, Repeat(true, n) + ms, false) == Pick(ws[n..], ms, false)
  {
    assert ws == ws[..n] + ws[n..];
    PickConcat(ws[..n], ws[n..], Repeat(true, n), ms, true);
    PickConcat(ws[..n], ws[n..], Repeat(true, n), ms, false);
    PickAll(ws[..n], true, true);
    PickAll(ws[..n], true, false);
  }

  /** The call that returns -1 leaves the words sorted. */
  lemma LastCall(g: Grammar, s: State)
    requires s.optind <= |s.args| && g.permute && Call(g, s).1 == Done
    ensures var t := Call(g, s).0;
            Rest(g, s).found == [] && t.args == Sorted(g, s) && t.optind == Options(g, s)
  {
    hide Read, Declared, Pick, Parse, Plain, Rotate, Repeat;
    var (args, o, sub) := (s.args, s.optind, s.sub);
    var j := First(g, args, o);
    Passed(g, args, o, j);
    var ps, ws := args[o..j], args[j..];
    ReadPlain(g, ps, ws, sub, true);
    PickPlain(g, ps, ws, sub);
    ReadLast(g, ws, sub, true);
    RotateLast(args, o, j);
  }

  lemma RotateLast(args: seq<string>, o: nat, j: nat)
    requires o <= j <= |args|
    ensures j < |args| ==> Rotate(args, o, j, 1) == args[..o] + args[j..][..1] + (args[o..j] + args[j..][1..])
    ensures args == args[..o] + [] + (args[o..j] + args[j..])
  {
  }

  // Nothing is left, or "--" and words behind it
  lemma ReadLast(g: Grammar, ws: seq<string>, sub: nat, carry: bool)
    requires ws == [] || (!Plain(g, ws[0]) && IsDashDash(ws[0]))
    ensures var (n, r) := (if ws == [] then 0 else 1, Read(g, ws, sub, carry));
            r.found == [] && Pick(ws, r.marks, true) == ws[..n] && Pick(ws, r.marks, false) == ws[n..]
  {
    if ws != [] {
      PickAll(ws[1..], false, true);
      PickAll(ws[1..], false, false);
      var m := Repeat(false, |ws| - 1);
      assert ([true] + m)[1..] == m;
    }
  }

  /** Permuting, the calls find what reading the line from left to right finds, `subopt` carried along; afterwards the
      options with their arguments stand in front of optind and all other words behind it, both in their first order. */
  lemma {:induction false} RunSorts(g: Grammar, s: State)
    requires s.optind <= |s.args| && g.permute
    ensures var (fs, t) := Run(g, s);
            fs == Rest(g, s).found && t.args == Sorted(g, s) && t.optind == Options(g, s)
    decreases |s.args| - s.optind, Ahead(g, s)
  {
    hide Read, Declared, Pick, Call, Ahead;
    if Call(g, s).1 == Done {
      LastCall(g, s);
    } else {
      CallAdvances(g, s);
      CallReads(g, s);
      RunSorts(g, Call(g, s).0);
    }
  }

  /** On a declared line nothing is carried: every word is read from its first letter. */
  lemma {:induction false} ReadsAgree(g: Grammar, ws: seq<string>, sub: nat)
    requires Declared(g, ws, sub)
    ensures Read(g, ws, sub, true) == Read(g, ws, sub, false)
    decreases |ws|
  {
    if ws == [] || IsDashDash(ws[0]) {
    } else if Plain(g, ws[0]) {
      ReadsAgree(g, ws[1..], sub);
    } else {
      var rest := ws[Word(g, ws[0], sub, Next(ws, 0)).1..];
      var left := WordLeaves(g, ws[0], sub, Next(ws, 0));
      if left == 0 {
        ReadsAgree(g, rest, 0);
      } else {
        StaleReads(g, rest, left);
      }
    }
  }

  /** So there the calls find every option as it stands on the line. */
  lemma RunReads(g: Grammar, s: State)
    requires s.optind <= |s.args| && g.permute && Declared(g, s.args[s.optind..], s.sub)
    ensures Run(g, s).0 == Read(g, s.args[s.optind..], s.sub, false).found
  {
    hide Run, Read, Declared;
    RunSorts(g, s);
    ReadsAgree(g, s.args[s.optind..], s.sub);
  }

  /** A run loses and invents no word, whatever the line and with or without permuting. */
  lemma {:induction false} RunPermutes(g: Grammar, s: State)
    requires s.optind <= |s.args|
    ensures multiset(Run(g, s).1.args) == multiset(s.args) && Run(g, s).1.args[..s.optind] == s.args[..s.optind]
    decreases |s.args| - s.optind, Ahead(g, s)
  {
    CallPermutes(g, s);
    hide Call, Ahead;
    if Call(g, s).1 != Done {
      CallAdvances(g, s);
      var t := Call(g, s).0;
      RunPermutes(g, t);
      FrontOfFront(Run(g, t).1.args, t.args, s.optind, t.optind);
    }
  }

  lemma FrontOfFront(ws: seq<string>, xs: seq<string>, o: nat, n: nat)
    requires o <= n <= |ws| && n <= |xs| && ws[..n] == xs[..n]
    ensures ws[..o] == xs[..o]
  {
    assert ws[..o] == ws[..n][..o];
  }

  lemma CallPermutes(g: Grammar, s: State)
    requires s.optind <= |s.args|
    ensures multiset(Call(g, s).0.args) == multiset(s.args) && Call(g, s).0.args[..s.optind] == s.args[..s.optind]
  {
    hide Parse, Plain;
    var (args, o) := (s.args, s.optind);
    var j := First(g, args, o);
    if j < |args| {
      RotatePermutes(args, o, j, if IsDashDash(args[j]) then 1 else Parse(g, args[j], s.sub, Next(args, j)).count);
    }
  }

  lemma RotatePermutes(args: seq<string>, o: nat, j: nat, c: nat)
    requires o <= j && j + c <= |args|
    ensures multiset(Rotate(args, o, j, c)) == multiset(args) && Rotate(args, o, j, c)[..o] == args[..o]
  {
    var (a, b, d, e) := (args[..o], args[o..j], args[j..j + c], args[j + c..]);
    assert args == a + b + d + e;
    assert Rotate(args, o, j, c) == a + d + b + e;
  }

  // The word a call starts with, if it is one of short options, is read from its first letter
  predicate FromStart(g: Grammar, s: State)
    requires s.optind <= |s.args|
  {
    var j := First(g, s.args, s.optind);
    j < |s.args| && IsShort(s.args[j]) ==> s.sub == 0
  }

  // So is every word that the calls to come start with
  ghost predicate AllFromStart(g: Grammar, s: State)
    requires s.optind <= |s.args|
    decreases |s.args| - s.optind, Ahead(g, s)
  {
    var (t, f) := Call(g, s);
    f == Done || (
      CallAdvances(g, s);
      (t.optind > s.optind ==> FromStart(g, t)) && AllFromStart(g, t))
  }

  // In front of a line without words of short options a leftover does no harm
  lemma NoShortStarts(g: Grammar, s: State, ps: seq<string>, ws: seq<string>)
    requires s.optind <= |s.args| && s.args[s.optind..] == ps + ws && AllPlain(g, ps) && (s.sub == 0 || NoShort(g, ws))
    ensures FromStart(g, s)
  {
    var j := First(g, s.args, s.optind);
    if j < |s.args| && IsShort(s.args[j]) {
      assert s.args[j] == (ps + ws)[j - s.optind];
      assert j - s.optind >= |ps|;
      var k: nat := j - s.optind - |ps|;
      assert ws[k] == s.args[j] && forall i :: 0 <= i < k ==> Plain(g, ws[i]) by {
        forall i | 0 <= i < k
          ensures Plain(g, ws[i])
        {
          assert ws[i] == (ps + ws)[|ps| + i] == s.args[s.optind + |ps| + i];
        }
      }
      if s.sub != 0 {
        NotNoShort(g, ws, k);
      }
    }
  }

  lemma {:induction false} NotNoShort(g: Grammar, ws: seq<string>, k: nat)
    requires k < |ws| && IsShort(ws[k]) && forall i :: 0 <= i < k ==> Plain(g, ws[i])
    ensures !NoShort(g, ws)
    decreases k
  {
    if k > 0 {
      NotNoShort(g, ws[1..], k - 1);
    }
  }

  // What a call does to a line of plain words and then a word to read
  lemma CallLeaves(g: Grammar, s: State) returns (ps: seq<string>, ws: seq<string>)
    requires s.optind <= |s.args| && Call(g, s).1 != Done
    ensures AllPlain(g, ps) && s.args[s.optind..] == ps + ws && ws != [] && !Plain(g, ws[0]) && !IsDashDash(ws[0])
    ensures var p, t := Parse(g, ws[0], s.sub, Next(ws, 0)), Call(g, s).0;
            && p.count <= |ws| && t.optind == s.optind + p.count && t.sub == p.sub
            && t.args[t.optind..] == ps + ws[p.count..]
  {
    hide *;
    var (args, o) := (s.args, s.optind);
    var j := CallFinds(g, s);
    Passed(g, args, o, j);
    ps, ws := args[o..j], args[j..];
    NextAt(args, j);
    var n := Parse(g, args[j], s.sub, Next(args, j)).count;
    RotateParts(args, o, j, n);
    Slices(args, j, n);
  }

  // Calls that read every word from its start with a leftover meet no word of short options
  lemma {:induction false} StaleMeetsNone(g: Grammar, s: State, ps: seq<string>, ws: seq<string>)
    requires s.optind <= |s.args| && s.args[s.optind..] == ps + ws && AllPlain(g, ps)
    requires g.permute && s.sub > 0 && FromStart(g, s) && AllFromStart(g, s)
    ensures NoShort(g, ws)
    decreases |s.args| - s.optind, Ahead(g, s)
  {
    if Call(g, s).1 == Done {
      DoneMeetsNone(g, s, ps, ws);
    } else {
      CallAdvances(g, s);
      var qs, vs := CallLeaves(g, s);
      var t := Call(g, s).0;
      NotShort(g, s, qs, vs);
      var p := Parse(g, vs[0], s.sub, Next(vs, 0));
      SubUnused(g, vs[0], s.sub, Next(vs, 0));
      StaleMeetsNone(g, t, qs, vs[p.count..]);
      assert NoShort(g, vs);
      hide Read;
      PlainNoShort(g, qs, vs);
      PlainNoShort(g, ps, ws);
    }
  }

  lemma NotShort(g: Grammar, s: State, ps: seq<string>, ws: seq<string>)
    requires s.optind <= |s.args| && s.args[s.optind..] == ps + ws && AllPlain(g, ps) && ws != [] && !Plain(g, ws[0])
    requires s.sub > 0 && FromStart(g, s)
    ensures !IsShort(ws[0])
  {
    var j := First(g, s.args, s.optind);
    var k := s.optind + |ps|;
    assert s.args[k] == (ps + ws)[|ps|] == ws[0];
    assert forall i :: s.optind <= i < k ==> s.args[i] == (ps + ws)[i - s.optind] == ps[i - s.optind];
    FirstIs(g, s.args, s.optind, k);
  }

  lemma {:induction false} FirstIs(g: Grammar, args: seq<string>, from: nat, k: nat)
    requires from <= k < |args| && !Plain(g, args[k]) && forall i :: from <= i < k ==> Plain(g, args[i])
    ensures First(g, args, from) == k
    decreases k - from
  {
    if from < k {
      FirstIs(g, args, from + 1, k);
    }
  }

  lemma {:induction false} PlainNoShort(g: Grammar, ps: seq<string>, ws: seq<string>)
    requires AllPlain(g, ps)
    ensures NoShort(g, ps + ws) == NoShort(g, ws)
  {
    if ps == [] {
      assert ps + ws == ws;
    } else {
      PlainNoShort(g, ps[1..], ws);
      assert (ps + ws)[1..] == ps[1..] + ws;
    }
  }

  lemma DoneMeetsNone(g: Grammar, s: State, ps: seq<string>, ws: seq<string>)
    requires s.optind <= |s.args| && s.args[s.optind..] == ps + ws && AllPlain(g, ps) && g.permute &&
        Call(g, s).1 == Done
    ensures NoShort(g, ws) && Declared(g, ws, s.sub)
  {
    var j := First(g, s.args, s.optind);
    Passed(g, s.args, s.optind, j);
    var qs, vs := s.args[s.optind..j], s.args[j..];
    assert NoShort(g, vs) && Declared(g, vs, s.sub);
    PlainNoShort(g, qs, vs);
    PlainNoShort(g, ps, ws);
    ReadPlain(g, qs, vs, s.sub, true);
    ReadPlain(g, ps, ws, s.sub, true);
  }

  /** The calls start every word of short options at its first letter if and only if the line is declared. */
  lemma {:induction false} FromStartIff(g: Grammar, s: State)
    requires s.optind <= |s.args| && g.permute
    ensures Declared(g, s.args[s.optind..], s.sub) <==> AllFromStart(g, s)
    decreases |s.args| - s.optind, Ahead(g, s)
  {
    if Call(g, s).1 == Done {
      assert s.args[s.optind..] == [] + s.args[s.optind..];
      DoneMeetsNone(g, s, [], s.args[s.optind..]);
    } else {
      CallAdvances(g, s);
      var t := Call(g, s).0;
      FromStartIff(g, t);
      var ps, ws := CallLeaves(g, s);
      var p := Parse(g, ws[0], s.sub, Next(ws, 0));
      ReadPlain(g, ps, ws, s.sub, true);
      ReadPlain(g, ps, ws[p.count..], p.sub, true);
      DeclaredOne(g, ws, s.sub);
      if AllFromStart(g, s) {
        if p.count > 0 && p.sub > 0 {
          StaleMeetsNone(g, t, ps, ws[p.count..]);
        }
      } else if Declared(g, ws, s.sub) {
        if p.count > 0 {
          NoShortStarts(g, t, ps, ws[p.count..]);
        }
      }
    }
  }

  lemma DeclaredOne(g: Grammar, ws: seq<string>, sub: nat)
    requires ws != [] && !Plain(g, ws[0]) && !IsDashDash(ws[0])
    ensures var p := Parse(g, ws[0], sub, Next(ws, 0));
            && p.count <= |ws|
            && (Declared(g, ws, sub) <==>
                Declared(g, ws[p.count..], p.sub) && (p.count > 0 && p.sub > 0 ==> NoShort(g, ws[p.count..])))
  {
    hide Letter, Long, Plain;
    var p := Parse(g, ws[0], sub, Next(ws, 0));
    if p.count == 0 {
      assert ws[p.count..] == ws;
    } else {
      if !IsShort(ws[0]) {
        LongOtherwise(g, ws[0]);
        SubUnused(g, ws[0], sub, Next(ws, 0));
      }
      if p.sub > 0 && NoShort(g, ws[p.count..]) {
        StaleReads(g, ws[p.count..], p.sub);
      }
    }
  }

  lemma {:induction false} LettersAlone(g: Grammar, w: string, i: nat, next: Option<string>, next': Option<string>)
    requires i > 0 && next != None && Letters(g, w, i, next).1 == 1
    ensures Letters(g, w, i, next') == Letters(g, w, i, next)
    decreases |w| - i
  {
    if Letter(g, w, i, next).count == 0 {
      LettersAlone(g, w, i + 1, next, next');
    }
  }

  lemma {:induction false} LeaveAlone(g: Grammar, w: string, i: nat, next: Option<string>, next': Option<string>)
    requires i > 0 && next != None && Letters(g, w, i, next).1 == 1
    ensures LettersLeave(g, w, i, next') == LettersLeave(g, w, i, next)
    decreases |w| - i
  {
    if Letter(g, w, i, next).count == 0 {
      LeaveAlone(g, w, i + 1, next, next');
    }
  }

  // A word that left the next one alone does not depend on it
  lemma WordAlone(g: Grammar, w: string, sub: nat, next: Option<string>, next': Option<string>)
    requires !Plain(g, w) && !IsDashDash(w) && next != None && Word(g, w, sub, next).1 == 1
    ensures Word(g, w, sub, next') == Word(g, w, sub, next) &&
        WordLeaves(g, w, sub, next') == WordLeaves(g, w, sub, next)
  {
    if IsShort(w) {
      LettersAlone(g, w, sub + 1, next, next');
      LeaveAlone(g, w, sub + 1, next, next');
    }
  }

  lemma PickSkips(g: Grammar, ws: seq<string>, sub: nat, carry: bool)
    requires ws != [] && Plain(g, ws[0])
    ensures Pick(ws, Read(g, ws, sub, carry).marks, true) == Pick(ws[1..], Read(g, ws[1..], sub, carry).marks, true)
  {
    var ms := Read(g, ws[1..], sub, carry).marks;
    PickHead(ws, [false] + ms, true);
    assert ([false] + ms)[1..] == ms;
  }

  // The words of the options, when the first one is such a word
  lemma PickWord(g: Grammar, ws: seq<string>, sub: nat, carry: bool) returns (us: seq<string>)
    requires ws != [] && !Plain(g, ws[0]) && !IsDashDash(ws[0])
    ensures us == Pick(ws, Read(g, ws, sub, carry).marks, true) && us != [] && us[0] == ws[0]
    ensures var (w, left) := (Word(g, ws[0], sub, Next(ws, 0)), WordLeaves(g, ws[0], sub, Next(ws, 0)));
            && w.1 <= |us|
            && us[w.1..] == Pick(ws[w.1..], Read(g, ws[w.1..], if carry then left else 0, carry).marks, true)
            && Word(g, us[0], sub, Next(us, 0)) == w && WordLeaves(g, us[0], sub, Next(us, 0)) == left
  {
    var n, left := Word(g, ws[0], sub, Next(ws, 0)).1, WordLeaves(g, ws[0], sub, Next(ws, 0));
    var ms := Read(g, ws[n..], if carry then left else 0, carry).marks;
    PickFront(ws, n, ms);
    us := ws[..n] + Pick(ws[n..], ms, true);
    assert us[n..] == Pick(ws[n..], ms, true);
    if n == 1 && |ws| > 1 {
      WordAlone(g, ws[0], sub, Next(ws, 0), Next(us, 0));
    } else if |ws| == 1 {
      assert us == ws;
    }
  }

  /** Without the words that are no options the same options are found. */
  lemma {:induction false} OnlyOptions(g: Grammar, ws: seq<string>, sub: nat, carry: bool)
    ensures Read(g, Pick(ws, Read(g, ws, sub, carry).marks, true), sub, carry).found == Read(g, ws, sub, carry).found
    decreases |ws|
  {
    if ws == [] {
    } else if Plain(g, ws[0]) {
      OnlyOptions(g, ws[1..], sub, carry);
      PickSkips(g, ws, sub, carry);
    } else if IsDashDash(ws[0]) {
      ReadLast(g, ws, sub, carry);
      ReadLast(g, ws[..1], sub, carry);
    } else {
      var left := WordLeaves(g, ws[0], sub, Next(ws, 0));
      OnlyOptions(g, ws[Word(g, ws[0], sub, Next(ws, 0)).1..], if carry then left else 0, carry);
      var us := PickWord(g, ws, sub, carry);
    }
  }

  lemma {:induction false} OnlyOptionsNoShort(g: Grammar, ws: seq<string>, sub: nat)
    ensures NoShort(g, Pick(ws, Read(g, ws, sub, true).marks, true)) == NoShort(g, ws)
    decreases |ws|
  {
    if ws == [] {
    } else if Plain(g, ws[0]) {
      OnlyOptionsNoShort(g, ws[1..], sub);
      PickSkips(g, ws, sub, true);
    } else if IsDashDash(ws[0]) {
      ReadLast(g, ws, sub, true);
    } else {
      var (n, left) := (Word(g, ws[0], sub, Next(ws, 0)).1, WordLeaves(g, ws[0], sub, Next(ws, 0)));
      OnlyOptionsNoShort(g, ws[n..], left);
      var us := PickWord(g, ws, sub, true);
      if !IsShort(ws[0]) {
        LongOtherwise(g, ws[0]);
        SubUnused(g, ws[0], sub, Next(ws, 0));
        SubUnused(g, us[0], sub, Next(us, 0));
      }
    }
  }

  /** A line is declared if and only if it is without the words that are no options. */
  lemma {:induction false} OnlyOptionsDeclared(g: Grammar, ws: seq<string>, sub: nat)
    ensures Declared(g, Pick(ws, Read(g, ws, sub, true).marks, true), sub) == Declared(g, ws, sub)
    decreases |ws|
  {
    if ws == [] {
    } else if Plain(g, ws[0]) {
      OnlyOptionsDeclared(g, ws[1..], sub);
      PickSkips(g, ws, sub, true);
    } else if IsDashDash(ws[0]) {
      ReadLast(g, ws, sub, true);
    } else {
      var rest := ws[Word(g, ws[0], sub, Next(ws, 0)).1..];
      var left := WordLeaves(g, ws[0], sub, Next(ws, 0));
      OnlyOptionsDeclared(g, rest, left);
      OnlyOptionsNoShort(g, rest, left);
      var us := PickWord(g, ws, sub, true);
    }
  }

  /** The calls find the same options when the words that are no options are left out of the line. */
  lemma OptionsAlone(g: Grammar, s: State)
    requires s.optind <= |s.args| && g.permute
    ensures var t := s.(args := s.args[..s.optind] + Pick(s.args[s.optind..], Rest(g, s).marks, true));
            Run(g, t).0 == Run(g, s).0
  {
    hide Read, Run, Pick;
    var tail := s.args[s.optind..];
    var picked := Pick(tail, Rest(g, s).marks, true);
    var t := s.(args := s.args[..s.optind] + picked);
    assert t.args[t.optind..] == picked;
    OnlyOptions(g, tail, s.sub, true);
    RunSorts(g, s);
    RunSorts(g, t);
  }

  // ---- words of several letters ----

  function Flags(letters: string): seq<Found> {
    if letters == "" then [] else [Yes(letters[0], None)] + Flags(letters[1..])
  }

  /** "-xyz" is "-x -y -z" as far as its letters take no argument. */
  lemma {:induction false} ClusterFlags(g: Grammar, w: string, i: nat, m: nat, next: Option<string>)
    requires 0 < i <= m < |w| && forall k :: i <= k < m ==> TypeOf(g.optstring, w[k]) == NONE
    ensures Letters(g, w, i, next) == (Flags(w[i..m]) + Letters(g, w, m, next).0, Letters(g, w, m, next).1)
    decreases m - i
  {
    if i < m {
      hide *;
      ClusterFlags(g, w, i + 1, m, next);
      FlagLetter(g, w, i, next);
      LettersStep(g, w, i, next);
      FlagsFront(w, i, m);
      AssocFound(Yes(w[i], None), Flags(w[i + 1..m]), Letters(g, w, m, next).0);
    } else {
      hide Letters;
      assert w[i..m] == "" && [] + Letters(g, w, m, next).0 == Letters(g, w, m, next).0;
    }
  }

  lemma FlagsFront(w: string, i: nat, m: nat)
    requires i < m <= |w|
    ensures Flags(w[i..m]) == [Yes(w[i], None)] + Flags(w[i + 1..m])
  {
    assert w[i..m][0] == w[i] && w[i..m][1..] == w[i + 1..m];
  }

  lemma AssocFound(f: Found, fs: seq<Found>, rest: seq<Found>)
    ensures [f] + fs + rest == [f] + (fs + rest)
  {
  }

  lemma FlagLetter(g: Grammar, w: string, i: nat, next: Option<string>)
    requires 0 < i && i + 1 < |w| && TypeOf(g.optstring, w[i]) == NONE
    ensures Letter(g, w, i, next) == Parsed(Yes(w[i], None), i, 0)
  {
  }

  /** After a word of short options `subopt` is 0 again, unless an undeclared letter behind another ended it. */
  lemma SubSurvives(g: Grammar, w: string, sub: nat, next: Option<string>)
    requires IsShort(w) && sub + 1 < |w|
    ensures var p := Parse(g, w, sub, next);
            p.count > 0 && p.sub != 0 <==> sub > 0 && (w[sub + 1] == ':' || w[sub + 1] !in g.optstring)
  {
  }

  /** Then a letter of the next word is skipped: here the b of "-bc". */
  lemma UndeclaredSkips()
    ensures var g, s := Grammar(true, false, "abc", []), State(["p", "-ax", "-bc"], 1, 0);
            && !Declared(g, s.args[1..], 0)
            && Yes('b', None) in Read(g, s.args[1..], 0, false).found
            && Yes('b', None) !in Run(g, s).0
  {
    hide *;
    var g, s := Grammar(true, false, "abc", []), State(["p", "-ax", "-bc"], 1, 0);
    var s1, s2, s3 := State(s.args, 1, 1), State(s.args, 2, 1), State(s.args, 3, 0);
    var a, x, b, c := Yes('a', None), No('x', Complaint(MSG_INVALID, "x")), Yes('b', None), Yes('c', None);
    SkipLetters(g);
    SkipCalls(g, s, s1, s2, s3, a, x, c);
    SkipRun(g, s, s1, s2, s3, a, x, c);
    assert s.args[1..] == ["-ax", "-bc"] && ["-ax", "-bc"][1..] == ["-bc"];
    SkipRead(g, a, x, b, c);
  }

  lemma LettersTwo(g: Grammar, w: string, i: nat, next: Option<string>, f: Found, f': Found)
    requires i > 0 && Letter(g, w, i, next) == Parsed(f, i, 0) && Letters(g, w, i + 1, next) == ([f'], 1)
    ensures Letters(g, w, i, next) == ([f, f'], 1)
  {
    LettersStep(g, w, i, next);
    assert [f] + [f'] == [f, f'];
  }

  lemma LettersStep(g: Grammar, w: string, i: nat, next: Option<string>)
    requires i > 0 && Letter(g, w, i, next).count == 0
    ensures Letters(g, w, i, next) == ([Letter(g, w, i, next).found] + Letters(g, w, i + 1, next).0,
        Letters(g, w, i + 1, next).1)
  {
    hide Letter;
  }

  lemma SkipRead(g: Grammar, a: Found, x: Found, b: Found, c: Found)
    requires Letter(g, "-ax", 1, Some("-bc")) == Parsed(a, 1, 0) && Letter(g, "-ax", 2, Some("-bc")) == Parsed(x, 1, 1)
    requires Letter(g, "-bc", 1, None) == Parsed(b, 1, 0) && Letter(g, "-bc", 2, None) == Parsed(c, 0, 1)
    ensures Read(g, ["-ax", "-bc"], 0, false).found == [a, x, b, c] && !Declared(g, ["-ax", "-bc"], 0)
  {
    hide Letter;
    var ws := ["-ax", "-bc"];
    assert ws[1..] == ["-bc"] && ["-bc"][1..] == [];
    assert Letters(g, "-bc", 2, None) == ([c], 1);
    LettersTwo(g, "-bc", 1, None, b, c);
    assert Letters(g, "-ax", 2, Some("-bc")) == ([x], 1);
    LettersTwo(g, "-ax", 1, Some("-bc"), a, x);
    assert Read(g, ["-bc"], 0, false).found == [b, c];
    assert LettersLeave(g, "-ax", 2, Some("-bc")) == 1;
    assert WordLeaves(g, "-ax", 0, Some("-bc")) == 1;
  }

  lemma SkipCalls(g: Grammar, s: State, s1: State, s2: State, s3: State, a: Found, x: Found, c: Found)
    requires s == State(["p", "-ax", "-bc"], 1, 0) && s1 == s.(sub := 1) && s2 == s1.(optind := 2) &&
        s3 == s.(optind := 3)
    requires Letter(g, "-ax", 1, Some("-bc")) == Parsed(a, 1, 0) && Letter(g, "-ax", 2, Some("-bc")) == Parsed(x, 1, 1)
    requires Letter(g, "-bc", 2, None) == Parsed(c, 0, 1)
    ensures Call(g, s) == (s1, a) && Call(g, s1) == (s2, x) && Call(g, s2) == (s3, c) && Call(g, s3) == (s3, Done)
  {
    hide Letter;
    CallHere(g, s);
    CallHere(g, s1);
    CallHere(g, s2);
  }

  lemma SkipLetters(g: Grammar)
    requires g == Grammar(true, false, "abc", [])
    ensures var next := Some("-bc");
            && Letter(g, "-ax", 1, next) == Parsed(Yes('a', None), 1, 0)
            && Letter(g, "-ax", 2, next) == Parsed(No('x', Complaint(MSG_INVALID, "x")), 1, 1)
            && Letter(g, "-bc", 1, None) == Parsed(Yes('b', None), 1, 0)
            && Letter(g, "-bc", 2, None) == Parsed(Yes('c', None), 0, 1)
  {
    hide Complaint;
    assert "abc"[0] == 'a' && "abc"[1] == 'b' && "abc"[2] == 'c';
    assert Find("abc", 'a') == 0 && Find("abc", 'b') == 1 && Find("abc", 'c') == 2 && Find("abc", 'x') == 3;
  }

  lemma SkipRun(g: Grammar, s: State, s1: State, s2: State, s3: State, a: Found, x: Found, c: Found)
    requires s.optind <= |s.args| && s1.optind <= |s1.args| && s2.optind <= |s2.args| && s3.optind <= |s3.args|
    requires Call(g, s) == (s1, a) && Call(g, s1) == (s2, x) && Call(g, s2) == (s3, c) && Call(g, s3) == (s3, Done)
    requires a != Done && x != Done && c != Done
    ensures Run(g, s).0 == [a, x, c]
  {
    hide Call, Ahead;
    assert Run(g, s3).0 == [];
    assert Run(g, s2).0 == [c];
    assert Run(g, s1).0 == [x, c];
  }
}
