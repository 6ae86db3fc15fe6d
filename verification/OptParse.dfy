/** packages/optparse-v1.0.0/optparse.c. The array argv holds the words; the null pointer behind them is its end. */
module OptParse {
  import opened OptSpec
  import opened Wrappers

  class Optparse {
    const argv: array<string>
    var permute: bool
    var optind: nat
    var optopt: char
    var optarg: Option<string>
    var errmsg: string
    var subopt: nat

    ghost function State(): State
      reads this, argv
    {
      OptSpec.State(argv[..], optind, subopt)
    }

    function ByShort(optstring: string): Grammar
      reads this
    {
      Grammar(permute, false, optstring, [])
    }

    function ByLong(longs: seq<LongOption>): Grammar
      reads this
    {
      Grammar(permute, true, FromLong(longs), longs)
    }

    // What a call finds, as it shows in the fields
    ghost predicate Shows(f: Found)
      reads this
    {
      match f
      case Done => true
      case Yes(c, arg) => optopt == c && optarg == arg && errmsg == ""
      case No(c, msg) => optopt == c && optarg == None && errmsg == msg
    }

    constructor (words: array<string>)
      requires words.Length >= 1
      ensures argv == words && permute && optind == 1 && subopt == 0
    {
      argv, permute, optind, subopt, optopt, optarg, errmsg := words, true, 1, 0, '\0', None, "";
    }

    method Error(msg: string, data: string) returns (r: int)
      requires |msg| + 5 <= ERRMSG - 2
      modifies `errmsg
      ensures r == '?' as int && errmsg == Complaint(msg, data)
    {
      var sep := " -- '";
      errmsg := msg + sep;
      var p := |errmsg|;
      var d := 0;
      while p < ERRMSG - 2 && d < |data|
        invariant 0 <= d <= |data| && p == |msg| + 5 + d <= ERRMSG - 2
        invariant errmsg == msg + sep + data[..d]
        decreases |data| - d
      {
        errmsg := errmsg + [data[d]];
        p, d := p + 1, d + 1;
      }
      assert d == |data| ==> data[..d] == data;
      errmsg := errmsg + "'";
      r := '?' as int;
    }

    /** The word at index goes behind the words that were used up. */
    method Permute(index: nat)
      requires index < optind <= argv.Length
      modifies argv
      ensures argv[..] == Shift(old(argv[..]), index, optind)
    {
      var nonoption := argv[index];
      for i := index to optind - 1
        invariant argv[..index] == old(argv[..index]) && argv[i..] == old(argv[i..])
        invariant argv[index..i] == old(argv[index + 1..i + 1])
      {
        argv[i] := argv[i + 1];
      }
      assert argv[index..optind - 1] == old(argv[index + 1..optind]) && argv[optind..] == argv[optind - 1..][1..];
      argv[optind - 1] := nonoption;
      assert old(argv[optind..]) == old(argv[optind - 1..])[1..];
      ShiftIs(old(argv[..]), argv[..], index, optind);
    }

    method ArgType(optstring: string, c: char) returns (t: int)
      ensures t == TypeOf(optstring, c)
    {
      if c == ':' {
        return UNKNOWN;
      }
      var i := 0;
      while i < |optstring| && optstring[i] != c
        invariant i <= Find(optstring, c)
      {
        i := i + 1;
      }
      FindAt(optstring, c, i);
      if i == |optstring| {
        return UNKNOWN;
      }
      t := NONE;
      if i + 1 < |optstring| && optstring[i + 1] == ':' {
        t := t + if i + 2 < |optstring| && optstring[i + 2] == ':' then 2 else 1;
      }
    }

    method LongoptsMatch(longname: Option<string>, option: string) returns (m: bool)
      ensures m <==> longname == Some(NameOf(option))
    {
      if longname == None {
        return false;
      }
      var n := longname.value;
      var k := 0;
      while k < |option| && k < |n| && option[k] != '='
        invariant k <= |option| && k <= |n| && k <= Find(option, '=') && n[..k] == option[..k]
      {
        if option[k] != n[k] {
          assert k < |NameOf(option)| && NameOf(option)[k] != n[k];
          return false;
        }
        k := k + 1;
      }
      m := k == |n| && (k == |option| || option[k] == '=');
      if m {
        FindAt(option, '=', k);
        assert n == n[..k];
      } else if k < |option| && option[k] == '=' {
        FindAt(option, '=', k);
      }
    }

    method LongoptsArg(option: string) returns (arg: Option<string>)
      ensures arg == ArgOf(option)
    {
      var k := 0;
      while k < |option| && option[k] != '='
        invariant k <= Find(option, '=')
      {
        k := k + 1;
      }
      FindAt(option, '=', k);
      arg := if k < |option| then Some(option[k + 1..]) else None;
    }

    method FromLongOptions(longs: seq<LongOption>) returns (optstring: string)
      ensures optstring == FromLong(longs)
    {
      optstring := "";
      for i := 0 to |longs|
        invariant optstring + FromLong(longs[i..]) == FromLong(longs)
      {
        hide FromLong, Colons;
        FromLongFirst(longs, i);
        ghost var before, rest := optstring, FromLong(longs[i + 1..]);
        if longs[i].shortname != '\0' {
          var o := longs[i];
          optstring := optstring + [o.shortname];
          var a := 0;
          while a < o.argtype
            invariant 0 <= a && optstring + Colons(o.argtype - a) == before + [o.shortname] + Colons(o.argtype)
            decreases o.argtype - a
          {
            ColonsStep(o.argtype - a);
            AssocColon(optstring, Colons(o.argtype - a - 1));
            optstring := optstring + ":";
            a := a + 1;
          }
          ColonsStep(o.argtype - a);
          assert optstring == before + [o.shortname] + Colons(o.argtype);
          AssocAll(before, [o.shortname], Colons(o.argtype), rest);
        }
      }
    }

    // The letter behind the last one read of argv[optind]
    method ReadShort(optstring: string, option: string) returns (r: int)
      requires optind < argv.Length && option == argv[optind] && IsShort(option) && '\0' !in optstring &&
          subopt + 1 <= |option|
      requires errmsg == "" && optarg == None
      modifies `optind, `optopt, `optarg, `errmsg, `subopt
      ensures var p := Letter(ByShort(optstring), option, old(subopt) + 1, OptSpec.Next(argv[..], old(optind)));
              optind == old(optind) + p.count && subopt == p.sub && r == Code(p.found) && Shows(p.found)
    {
      var i := subopt + 1;
      optopt := if i < |option| then option[i] else '\0';
      var t := ArgType(optstring, optopt);
      if t == UNKNOWN {
        optind := optind + 1;
        r := Error(MSG_INVALID, if optopt == '\0' then "" else [optopt]);
      } else if t == NONE {
        if i + 1 < |option| {
          subopt := subopt + 1;
        } else {
          subopt := 0;
          optind := optind + 1;
        }
        r := optopt as int;
      } else {
        subopt := 0;
        optind := optind + 1;
        if i + 1 < |option| {
          optarg := Some(option[i + 1..]);
        } else if t == REQUIRED {
          if optind == argv.Length {
            r := Error(MSG_MISSING, [optopt]);
            return;
          }
          optarg := Some(argv[optind]);
          optind := optind + 1;
        }
        r := optopt as int;
      }
    }

    /** optparse: reads the next short option, moving words that are none behind it. */
    method Next(optstring: string) returns (r: int)
      requires optind <= argv.Length && '\0' !in optstring && Within(ByShort(optstring), argv[..], optind, subopt)
      modifies this, argv
      ensures permute == old(permute) && optind <= argv.Length
      ensures var (t, f) := Call(ByShort(optstring), old(State()));
              State() == t && r == Code(f) && Shows(f)
      ensures Call(ByShort(optstring), old(State())).1 == Done ==> optarg == None && optopt == '\0' && errmsg == ""
      decreases argv.Length - optind
    {
      hide Call, Parse, Letter, Shift, Within, TypeOf;
      errmsg, optopt, optarg := "", '\0', None;
      CallStops(ByShort(optstring), State());
      WithinIs(ByShort(optstring), argv[..], optind, subopt);
      if optind == argv.Length {
        return -1;
      }
      var option := argv[optind];
      if IsDashDash(option) {
        optind := optind + 1;
        return -1;
      }
      if !IsShort(option) {
        if !permute {
          return -1;
        }
        ghost var s := State();
        SkipPlain(ByShort(optstring), s);
        var index := optind;
        optind := optind + 1;
        r := Next(optstring);
        Permute(index);
        optind := optind - 1;
        return;
      }
      CallHere(ByShort(optstring), State());
      ParseShort(ByShort(optstring), option, subopt, OptSpec.Next(argv[..], optind));
      r := ReadShort(optstring, option);
    }

    // The word behind two dashes
    method ReadLong(longs: seq<LongOption>, index: int) returns (r: int, longindex: int)
      requires optind < argv.Length && IsLong(argv[optind]) &&
          (forall o :: o in longs ==> NONE <= o.argtype <= OPTIONAL)
      modifies `optind, `optopt, `optarg, `errmsg
      ensures var p := Long(ByLong(longs), old(argv[optind]), subopt, OptSpec.Next(argv[..], old(optind)));
              optind == old(optind) + p.count && subopt == p.sub && r == Code(p.found) && Shows(p.found)
      ensures var i := FindLong(longs, NameOf(old(argv[optind])[2..]));
              longindex == if i < |longs| then i else index
    {
      errmsg, optopt, optarg := "", '\0', None;
      var option := argv[optind][2..];
      optind := optind + 1;
      longindex := index;
      for i := 0 to |longs|
        invariant forall k :: 0 <= k < i ==> longs[k].longname != Some(NameOf(option))
        invariant optind == old(optind) + 1 && errmsg == "" && optarg == None && optopt == '\0' && longindex == index
      {
        var o := longs[i];
        var m := LongoptsMatch(o.longname, option);
        if m {
          FindLongAt(longs, NameOf(option), i);
          longindex, optopt := i, o.shortname;
          var arg := LongoptsArg(option);
          if o.argtype == NONE && arg != None {
            r := Error(MSG_TOOMANY, o.longname.value);
            return;
          }
          if arg != None {
            optarg := arg;
          } else if o.argtype == REQUIRED {
            if optind == argv.Length {
              r := Error(MSG_MISSING, o.longname.value);
              return;
            }
            optarg := Some(argv[optind]);
            optind := optind + 1;
          }
          r := optopt as int;
          return;
        }
      }
      FindLongAt(longs, NameOf(option), |longs|);
      r := Error(MSG_INVALID, option);
    }

    method ShortIndex(longs: seq<LongOption>, c: char) returns (longindex: int)
      ensures longindex == LastShort(longs, c)
    {
      longindex := -1;
      for i := 0 to |longs|
        invariant longindex == LastShort(longs[..i], c)
      {
        LastShortStep(longs, c, i);
        if longs[i].shortname == c {
          longindex := i;
        }
      }
      assert longs[..|longs|] == longs;
    }

    // optparse_long_fallback: the last entry of the letter gives the index
    method Fallback(longs: seq<LongOption>) returns (r: int, longindex: int)
      requires optind < argv.Length && IsShort(argv[optind]) && Within(ByLong(longs), argv[..], optind, subopt)
      requires |FromLong(longs)| <= OPTSTRING
      modifies this, argv
      ensures permute == old(permute) && optind <= argv.Length
      ensures var (t, f) := Call(ByLong(longs), old(State()));
              State() == t && r == Code(f) && Shows(f)
      ensures longindex == LastShort(longs, optopt)
    {
      hide Call, Within, FromLong, LastShort, Parse, Letter;
      ghost var s := State();
      var optstring := FromLongOptions(longs);
      FromLongString(longs);
      SameShort(ByShort(optstring), ByLong(longs), s);
      WithinBoth(ByLong(longs), ByShort(optstring), argv[..], optind, subopt);
      r := Next(optstring);
      longindex := ShortIndex(longs, optopt);
    }

    /** optparse_long: short options through optparse, long ones here. */
    method NextLong(longs: seq<LongOption>, index: int) returns (r: int, longindex: int)
      requires optind <= argv.Length && Within(ByLong(longs), argv[..], optind, subopt)
      requires |FromLong(longs)| <= OPTSTRING && forall o :: o in longs ==> NONE <= o.argtype <= OPTIONAL
      modifies this, argv
      ensures permute == old(permute) && optind <= argv.Length
      ensures var (t, f) := Call(ByLong(longs), old(State()));
              State() == t && r == Code(f) && Shows(f)
      ensures longindex == LongIndex(ByLong(longs), old(State()), index)
      decreases argv.Length - optind
    {
      hide Call, Parse, Letter, Long, Shift, Within, TypeOf, FromLong, FindLong, LastShort, LongIndex;
      CallStops(ByLong(longs), State());
      WithinIs(ByLong(longs), argv[..], optind, subopt);
      IndexIs(ByLong(longs), State(), index);
      longindex := index;
      if optind == argv.Length {
        return -1, index;
      }
      var option := argv[optind];
      if IsDashDash(option) {
        optind := optind + 1;
        return -1, index;
      } else if IsShort(option) {
        CallHere(ByLong(longs), State());
        r, longindex := Fallback(longs);
        return;
      } else if !IsLong(option) {
        if !permute {
          return -1, index;
        }
        SkipPlain(ByLong(longs), State());
        var at := optind;
        optind := optind + 1;
        r, longindex := NextLong(longs, index);
        Permute(at);
        optind := optind - 1;
        return;
      }
      CallHere(ByLong(longs), State());
      ParseLong(ByLong(longs), option, subopt, OptSpec.Next(argv[..], optind));
      r, longindex := ReadLong(longs, index);
    }

    /** optparse_arg: the next word, whatever it is. */
    method Arg() returns (option: Option<string>)
      requires optind <= argv.Length
      modifies `optind, `subopt
      ensures option == (if old(optind) < argv.Length then Some(argv[old(optind)]) else None)
      ensures optind == old(optind) + (if option == None then 0 else 1) && subopt == 0
    {
      option := None;
      subopt := 0;
      if optind < argv.Length {
        option := Some(argv[optind]);
        optind := optind + 1;
      }
    }

    /** The loop around optparse: until -1, noting what each call found. */
    method ReadAll(optstring: string) returns (found: seq<Found>)
      requires optind <= argv.Length && permute && '\0' !in optstring
      requires AllWithin(ByShort(optstring), State())
      modifies this, argv
      ensures optind <= argv.Length && permute
      ensures found == Rest(ByShort(optstring), old(State())).found
      ensures argv[..] == Sorted(ByShort(optstring), old(State()))
      ensures optind == Options(ByShort(optstring), old(State()))
    {
      hide Call, Within, Parse, Rest, Sorted, Options, Ahead, Code;
      ghost var g, s := ByShort(optstring), State();
      ghost var s0 := s;
      found := [];
      var r := Next(optstring);
      while r != -1
        invariant s.optind <= |s.args| && AllWithin(g, s)
        invariant optind <= argv.Length && permute && g == ByShort(optstring)
        invariant (State(), Call(g, s).1) == Call(g, s) && r == Code(Call(g, s).1) && Shows(Call(g, s).1)
        invariant found + Rest(g, s).found == Rest(g, s0).found
        invariant Sorted(g, s) == Sorted(g, s0) && Options(g, s) == Options(g, s0)
        decreases |s.args| - s.optind, Ahead(g, s)
      {
        CodeIs(Call(g, s).1);
        if Call(g, s).1.No? {
          CallMessage(g, s);
        }
        CallReads(g, s);
        CallAdvances(g, s);
        ghost var before := found;
        found := found + [if errmsg == "" then Yes(optopt, optarg) else No(optopt, errmsg)];
        assert before + ([Call(g, s).1] + Rest(g, State()).found) == found + Rest(g, State()).found;
        s := State();
        r := Next(optstring);
      }
      CodeIs(Call(g, s).1);
      LastCall(g, s);
    }
  }

  // sizeof(optstring) in optparse_long_fallback, without the terminator
  const OPTSTRING: nat := 288

  function Code(f: Found): int {
    match f
    case Done => -1
    case Yes(c, _) => c as int
    case No(_, _) => '?' as int
  }

  // subopt does not point behind the word it belongs to
  predicate Within(g: Grammar, args: seq<string>, optind: nat, sub: nat)
    requires optind <= |args|
  {
    var j := First(g, args, optind);
    j < |args| && IsShort(args[j]) ==> sub + 1 <= |args[j]|
  }

  lemma WithinIs(g: Grammar, args: seq<string>, optind: nat, sub: nat)
    requires optind <= |args| && Within(g, args, optind, sub)
    ensures optind < |args| && Plain(g, args[optind]) ==> Within(g, args, optind + 1, sub)
    ensures optind < |args| && IsShort(args[optind]) ==> sub + 1 <= |args[optind]|
  {
  }

  lemma ColonsStep(n: int)
    ensures Colons(n) == if n <= 0 then "" else ":" + Colons(n - 1)
  {
  }

  lemma AssocColon(s: string, t: string)
    ensures s + ":" + t == s + (":" + t)
  {
  }

  lemma AssocAll(a: string, b: string, c: string, d: string)
    ensures a + (b + c + d) == a + b + c + d
  {
  }

  /** A call returns the letter of the option, '?' for an error, or -1 at the end. */
  lemma CodeIs(f: Found)
    ensures Code(f) == -1 <==> f == Done
    ensures f.Yes? ==> Code(f) == f.opt as int
    ensures f.No? ==> Code(f) == 63
  {
  }

  lemma FindLongAt(longs: seq<LongOption>, name: string, i: nat)
    requires i <= |longs| && (forall k :: 0 <= k < i ==> longs[k].longname != Some(name)) &&
        (i < |longs| ==> longs[i].longname == Some(name))
    ensures FindLong(longs, name) == i
  {
  }

  lemma LastShortStep(longs: seq<LongOption>, c: char, i: nat)
    requires i < |longs|
    ensures LastShort(longs[..i + 1], c) == if longs[i].shortname == c then i else LastShort(longs[..i], c)
    ensures LastShort([], c) == -1
  {
    assert longs[..i + 1][..i] == longs[..i];
  }

  lemma ParseLong(g: Grammar, w: string, sub: nat, next: Option<string>)
    requires IsLong(w) && g.long
    ensures Parse(g, w, sub, next) == Long(g, w, sub, next)
  {
  }

  lemma WithinBoth(g: Grammar, g': Grammar, args: seq<string>, optind: nat, sub: nat)
    requires optind < |args| && IsShort(args[optind]) && Within(g, args, optind, sub)
    ensures Within(g', args, optind, sub)
  {
  }

  // It never does in the calls to come
  ghost predicate AllWithin(g: Grammar, s: State)
    requires s.optind <= |s.args|
    decreases |s.args| - s.optind, Ahead(g, s)
  {
    Within(g, s.args, s.optind, s.sub) && (
      Call(g, s).1 == Done || (
        CallAdvances(g, s);
        AllWithin(g, Call(g, s).0)))
  }

  /** On a declared line it never does. */
  lemma {:induction false} DeclaredWithin(g: Grammar, s: State)
    requires s.optind <= |s.args| && g.permute && Declared(g, s.args[s.optind..], s.sub)
    requires Within(g, s.args, s.optind, s.sub)
    ensures AllWithin(g, s)
    decreases |s.args| - s.optind, Ahead(g, s)
  {
    hide Call, Within, Declared, Ahead;
    if Call(g, s).1 != Done {
      CallAdvances(g, s);
      WithinKept(g, s);
      DeclaredWithin(g, Call(g, s).0);
    }
  }

  /** A call on a declared line leaves a declared line, and subopt within its word. */
  lemma WithinKept(g: Grammar, s: State)
    requires s.optind <= |s.args| && g.permute && Declared(g, s.args[s.optind..], s.sub) && Call(g, s).1 != Done
    ensures var t := Call(g, s).0; Within(g, t.args, t.optind, t.sub) && Declared(g, t.args[t.optind..], t.sub)
  {
    hide *;
    var ps, ws := CallLeaves(g, s);
    ReadPlain(g, ps, ws, s.sub, true);
    DeclaredOne(g, ws, s.sub);
    SubKept(g, ws, s.sub);
    var p, t := Parse(g, ws[0], s.sub, Next(ws, 0)), Call(g, s).0;
    ReadPlain(g, ps, ws[p.count..], p.sub, true);
    if p.count > 0 {
      NoShortStarts(g, t, ps, ws[p.count..]);
      StartsWithin(g, t);
    } else {
      WholeTail(ws);
      WithinAt(g, t, ps, ws);
    }
  }

  lemma WholeTail(ws: seq<string>)
    ensures ws[0..] == ws
  {
  }

  lemma SubKept(g: Grammar, ws: seq<string>, sub: nat)
    requires ws != [] && !Plain(g, ws[0]) && !IsDashDash(ws[0])
    ensures var p := Parse(g, ws[0], sub, Next(ws, 0)); p.count == 0 ==> p.sub + 1 <= |ws[0]|
  {
  }

  lemma StartsWithin(g: Grammar, s: State)
    requires s.optind <= |s.args| && FromStart(g, s)
    ensures Within(g, s.args, s.optind, s.sub)
  {
  }

  lemma WithinAt(g: Grammar, s: State, ps: seq<string>, ws: seq<string>)
    requires s.optind <= |s.args| && s.args[s.optind..] == ps + ws && AllPlain(g, ps)
    requires ws != [] && !Plain(g, ws[0]) && s.sub + 1 <= |ws[0]|
    ensures Within(g, s.args, s.optind, s.sub)
  {
    var k := s.optind + |ps|;
    assert s.args[k] == (ps + ws)[|ps|] == ws[0];
    assert forall i :: s.optind <= i < k ==> s.args[i] == (ps + ws)[i - s.optind] == ps[i - s.optind];
    FirstIs(g, s.args, s.optind, k);
  }

  lemma IndexIs(g: Grammar, s: State, before: int)
    requires s.optind <= |s.args|
    ensures s.optind == |s.args| ==> LongIndex(g, s, before) == before
    ensures s.optind < |s.args| && IsDashDash(s.args[s.optind]) ==> LongIndex(g, s, before) == before
    ensures s.optind < |s.args| && Plain(g, s.args[s.optind]) && !g.permute ==> LongIndex(g, s, before) == before
    ensures s.optind < |s.args| && Plain(g, s.args[s.optind]) && g.permute ==>
              LongIndex(g, s, before) == LongIndex(g, s.(optind := s.optind + 1), before)
    ensures s.optind < |s.args| && IsShort(s.args[s.optind]) ==>
              LongIndex(g, s, before) == LastShort(g.longs,
                  Parse(g, s.args[s.optind], s.sub, Next(s.args, s.optind)).found.opt)
    ensures s.optind < |s.args| && IsLong(s.args[s.optind]) && g.long ==>
              var i := FindLong(g.longs, NameOf(s.args[s.optind][2..]));
              LongIndex(g, s, before) == if i < |g.longs| then i else before
  {
    hide Letter, Long;
  }

  lemma FindAt(s: string, c: char, i: nat)
    requires i <= Find(s, c) && (i < |s| ==> s[i] == c)
    ensures Find(s, c) == i
  {
  }
}
