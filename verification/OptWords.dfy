/** What packages/optparse-v1.0.0/optparse.c makes of a word of each form: "-abc", "-ofile", "-o file", "--name",
    "--name=argument", "--name argument" and "--". */
module OptWords {
  import opened OptSpec
  import opened Wrappers

  // ---- what a string of letters and colons declares ----

  /** One colon behind a letter declares a required argument, two an optional one; the first place of the letter counts.
      */
  lemma Declares(front: string, c: char, back: string)
    requires c != ':' && c !in front
    ensures TypeOf(front + [c] + back, c)
         == if "::" <= back then OPTIONAL else if ":" <= back then REQUIRED else NONE
  {
    hide Find;
    FindSkips(front, [c] + back, c);
    FindHere([c] + back, c);
    var s := front + [c] + back;
    assert front + ([c] + back) == s;
    assert forall k :: 0 <= k < |back| ==> s[|front| + 1 + k] == back[k];
  }

  lemma FindHere(s: string, c: char)
    requires s != "" && s[0] == c
    ensures Find(s, c) == 0
  {
  }

  // ---- the kinds of words ----

  /** A word of short options is a dash and something that is no dash; a long option is two dashes and something. "-"
      and words without a dash are no options, and "--name" is none to optparse. */
  lemma Kinds(g: Grammar, c: char, x: string)
    ensures IsShort("-" + [c] + x) <==> c != '-'
    ensures IsLong("--" + [c] + x) && !IsShort("--" + x) && !IsDashDash("--" + [c] + x) && IsDashDash("--")
    ensures Plain(g, "-") && Plain(g, "") && (c != '-' ==> Plain(g, [c] + x))
    ensures Plain(g, "--" + [c] + x) <==> !g.long
    ensures !Plain(g, "--") && (c != '-' ==> !Plain(g, "-" + [c] + x))
  {
  }

  // ---- one letter ----

  // The letter c at its place in a word
  lemma At(front: string, c: char, arg: string)
    ensures var w := front + [c] + arg; |w| == |front| + 1 + |arg| && w[|front|] == c && w[|front| + 1..] == arg
  {
  }

  /** Whatever stands behind a letter that may have an argument is its argument, and the word is used up. */
  lemma AttachedArgument(g: Grammar, front: string, c: char, arg: string, next: Option<string>)
    requires front != "" && arg != "" && TypeOf(g.optstring, c) in {REQUIRED, OPTIONAL}
    ensures Letter(g, front + [c] + arg, |front|, next) == Parsed(Yes(c, Some(arg)), 0, 1)
  {
    hide TypeOf, Complaint;
    At(front, c, arg);
  }

  /** Behind the last letter of a word a required argument is the next word, whatever that is; */
  lemma NextWordArgument(g: Grammar, front: string, c: char, next: string)
    requires front != "" && TypeOf(g.optstring, c) == REQUIRED
    ensures Letter(g, front + [c], |front|, Some(next)) == Parsed(Yes(c, Some(next)), 0, 2)
  {
    hide TypeOf, Complaint;
    At(front, c, "");
    assert front + [c] + "" == front + [c];
  }

  /** without a next word it is missing; */
  lemma MissingArgument(g: Grammar, front: string, c: char)
    requires front != "" && TypeOf(g.optstring, c) == REQUIRED
    ensures Letter(g, front + [c], |front|, None) == Parsed(No(c, "option requires an argument -- '" + [c] + "'"), 0, 1)
  {
    ComplaintIs(MSG_MISSING, [c]);
    hide TypeOf, Complaint;
    At(front, c, "");
    assert front + [c] + "" == front + [c];
  }

  /** and an optional argument is none: the next word is left alone. */
  lemma NoArgument(g: Grammar, front: string, c: char, next: Option<string>)
    requires front != "" && TypeOf(g.optstring, c) in {NONE, OPTIONAL}
    ensures Letter(g, front + [c], |front|, next) == Parsed(Yes(c, None), 0, 1)
  {
    hide TypeOf, Complaint;
    At(front, c, "");
    assert front + [c] + "" == front + [c];
  }

  /** A letter that is not declared is an error that ends the word. */
  lemma UnknownLetter(g: Grammar, front: string, c: char, back: string, next: Option<string>)
    requires front != "" && c != '\0' && (c == ':' || c !in g.optstring)
    ensures Letter(g, front + [c] + back, |front|, next)
         == Parsed(No(c, "invalid option -- '" + [c] + "'"), |front| - 1, 1)
  {
    assert TypeOf(g.optstring, c) == UNKNOWN;
    ComplaintIs(MSG_INVALID, [c]);
    hide TypeOf, Complaint;
    At(front, c, back);
  }

  /** A message that fits into errmsg is there in full; of a longer one the data is cut off, and the quote still stands
      behind it. */
  lemma ComplaintIs(msg: string, data: string)
    requires |msg| + 5 <= ERRMSG - 2
    ensures |msg| + |data| <= 57 ==> Complaint(msg, data) == msg + " -- '" + data + "'"
    ensures |msg| + |data| > 57 ==> Complaint(msg, data) == msg + " -- '" + data[..57 - |msg|] + "'"
    ensures |Complaint(msg, data)| < ERRMSG
  {
    if |msg| == 57 {
      assert data[..0] == "";
    }
  }

  // ---- one word ----

  predicate AllFlags(g: Grammar, flags: string) {
    forall k :: 0 <= k < |flags| ==> TypeOf(g.optstring, flags[k]) == NONE
  }

  // "-", flags, and what is behind them
  lemma FlagsFirst(g: Grammar, flags: string, back: string, next: Option<string>)
    requires AllFlags(g, flags) && back != ""
    ensures var (w, m) := ("-" + flags + back, 1 + |flags|);
            Letters(g, w, 1, next) == (Flags(flags) + Letters(g, w, m, next).0, Letters(g, w, m, next).1)
  {
    var w, m := "-" + flags + back, 1 + |flags|;
    hide TypeOf, Letters, Flags;
    assert w[1..m] == flags;
    assert forall k :: 1 <= k < m ==> w[k] == flags[k - 1];
    ClusterFlags(g, w, 1, m, next);
  }

  /** Letters without arguments in front of a letter with one: "-abofile". */
  lemma WordAttached(g: Grammar, flags: string, c: char, arg: string, next: Option<string>)
    requires AllFlags(g, flags) && arg != "" && TypeOf(g.optstring, c) in {REQUIRED, OPTIONAL}
    ensures Letters(g, "-" + flags + ([c] + arg), 1, next) == (Flags(flags) + [Yes(c, Some(arg))], 1)
  {
    hide TypeOf, Flags;
    FlagsFirst(g, flags, [c] + arg, next);
    AttachedArgument(g, "-" + flags, c, arg, next);
    assert "-" + flags + [c] + arg == "-" + flags + ([c] + arg);
  }

  /** "-abo file" */
  lemma WordNext(g: Grammar, flags: string, c: char, next: string)
    requires AllFlags(g, flags) && TypeOf(g.optstring, c) == REQUIRED
    ensures Letters(g, "-" + flags + [c], 1, Some(next)) == (Flags(flags) + [Yes(c, Some(next))], 2)
  {
    hide TypeOf, Flags;
    FlagsFirst(g, flags, [c], Some(next));
    NextWordArgument(g, "-" + flags, c, next);
  }

  /** "-abo" at the end of the line */
  lemma WordMissing(g: Grammar, flags: string, c: char)
    requires AllFlags(g, flags) && TypeOf(g.optstring, c) == REQUIRED
    ensures Letters(g, "-" + flags + [c], 1, None)
         == (Flags(flags) + [No(c, "option requires an argument -- '" + [c] + "'")], 1)
  {
    hide TypeOf, Flags;
    FlagsFirst(g, flags, [c], None);
    MissingArgument(g, "-" + flags, c);
  }

  /** "-abc", where nothing takes the next word */
  lemma WordFlags(g: Grammar, flags: string, c: char, next: Option<string>)
    requires AllFlags(g, flags) && TypeOf(g.optstring, c) in {NONE, OPTIONAL}
    ensures Letters(g, "-" + flags + [c], 1, next) == (Flags(flags) + [Yes(c, None)], 1)
  {
    hide TypeOf, Flags;
    FlagsFirst(g, flags, [c], next);
    NoArgument(g, "-" + flags, c, next);
  }

  // ---- long options ----

  // The option that a name stands for: the first entry of that name
  predicate Names(longs: seq<LongOption>, name: string, i: nat) {
    i < |longs| && longs[i].longname == Some(name) && forall k :: 0 <= k < i ==> longs[k].longname != Some(name)
  }

  predicate Unknown(longs: seq<LongOption>, name: string) {
    forall k :: 0 <= k < |longs| ==> longs[k].longname != Some(name)
  }

  lemma Dashes(x: string)
    ensures ("--" + x)[2..] == x && (x != "" ==> IsLong("--" + x))
  {
  }

  /** "--name=argument": the argument is that of the option, unless it takes none. */
  lemma LongAttached(g: Grammar, name: string, arg: string, i: nat, sub: nat, next: Option<string>)
    requires '=' !in name && Names(g.longs, name, i)
    ensures var (w, o) := ("--" + (name + "=" + arg), g.longs[i]);
            && IsLong(w)
            && Long(g, w, sub, next)
               == if o.argtype == NONE
                  then Parsed(No(o.shortname, Complaint("option takes no arguments", name)), sub, 1)
                  else Parsed(Yes(o.shortname, Some(arg)), sub, 1)
  {
    hide Complaint;
    NameAndArg(name, arg);
    Dashes(name + "=" + arg);
  }

  /** "--name": a required argument is the next word, or it is missing; any other option has none. */
  lemma LongAlone(g: Grammar, name: string, i: nat, sub: nat, next: Option<string>)
    requires name != "" && '=' !in name && Names(g.longs, name, i)
    ensures var (w, o) := ("--" + name, g.longs[i]);
            && IsLong(w)
            && Long(g, w, sub, next)
               == if o.argtype != REQUIRED then Parsed(Yes(o.shortname, None), sub, 1)
                  else match next
                       case Some(_) => Parsed(Yes(o.shortname, next), sub, 2)
                       case None =>
                         Parsed(No(o.shortname, Complaint("option requires an argument", name)), sub, 1)
  {
    hide Complaint;
    NameAndArg(name, "");
    Dashes(name);
  }

  /** A name that no option has is an error that shows the whole word behind the dashes. */
  lemma LongUnknown(g: Grammar, name: string, arg: string, sub: nat, next: Option<string>)
    requires '=' !in name && Unknown(g.longs, name)
    ensures name != "" ==>
              Long(g, "--" + name, sub, next) == Parsed(No('\0', Complaint("invalid option", name)), sub, 1)
    ensures Long(g, "--" + (name + "=" + arg), sub, next)
         == Parsed(No('\0', Complaint("invalid option", name + "=" + arg)), sub, 1)
  {
    hide Complaint;
    NameAndArg(name, arg);
    Dashes(name);
    Dashes(name + "=" + arg);
  }

  // ---- the line ----

  // What Read makes of a first word that it reads in full
  lemma ReadWord(g: Grammar, w: string, ws: seq<string>, carry: bool, fs: seq<Found>, n: nat)
    requires !Plain(g, w) && !IsDashDash(w) && n <= 1 + |ws|
    requires Word(g, w, 0, Next([w] + ws, 0)) == (fs, n) && WordLeaves(g, w, 0, Next([w] + ws, 0)) == 0
    ensures n > 0 && Read(g, [w] + ws, 0, carry).found == fs + Read(g, ws[n - 1..], 0, carry).found
  {
    hide Word, WordLeaves, Plain;
    assert ([w] + ws)[n..] == ws[n - 1..];
  }

  // subopt behind a word that ends with a declared letter
  lemma {:induction false} LeavesNone(g: Grammar, w: string, i: nat, m: nat, next: Option<string>)
    requires 0 < i <= m < |w| && forall k :: i <= k < m ==> TypeOf(g.optstring, w[k]) == NONE
    requires Letter(g, w, m, next).count > 0 && Letter(g, w, m, next).sub == 0
    ensures LettersLeave(g, w, i, next) == 0
    decreases m - i
  {
    hide Letter;
    if i < m {
      FlagLetter(g, w, i, next);
      LeavesNone(g, w, i + 1, m, next);
    }
  }

  lemma FlagsLeave(g: Grammar, flags: string, back: string, next: Option<string>)
    requires AllFlags(g, flags) && back != ""
    requires var p := Letter(g, "-" + flags + back, 1 + |flags|, next); p.count > 0 && p.sub == 0
    ensures LettersLeave(g, "-" + flags + back, 1, next) == 0
  {
    hide TypeOf, Letter;
    var w := "-" + flags + back;
    assert forall k :: 1 <= k < 1 + |flags| ==> w[k] == flags[k - 1];
    LeavesNone(g, w, 1, 1 + |flags|, next);
  }

  lemma ShortWord(g: Grammar, flags: string, c: char, arg: string)
    requires (flags + [c])[0] != '-'
    ensures IsShort("-" + flags + ([c] + arg)) && "-" + flags + ([c] + "") == "-" + flags + [c]
  {
    var w := "-" + flags + ([c] + arg);
    assert w[1] == (flags + [c])[0];
    assert [c] + "" == [c];
  }

  /** "-abo" takes the word behind it as the argument of o, even if that looks like an option, and the reading goes on
      behind that word. */
  lemma ArgumentBehind(g: Grammar, flags: string, c: char, v: string, ws: seq<string>, carry: bool)
    requires AllFlags(g, flags) && TypeOf(g.optstring, c) == REQUIRED && (flags + [c])[0] != '-'
    ensures Read(g, ["-" + flags + [c], v] + ws, 0, carry).found
         == Flags(flags) + [Yes(c, Some(v))] + Read(g, ws, 0, carry).found
  {
    var w := "-" + flags + [c];
    hide TypeOf, Flags, Letters, Letter, LettersLeave, Read;
    ShortWord(g, flags, c, "");
    WordNext(g, flags, c, v);
    NextWordArgument(g, "-" + flags, c, v);
    FlagsLeave(g, flags, [c], Some(v));
    var vs := [v] + ws;
    assert [w, v] + ws == [w] + vs && vs[1..] == ws && Next([w] + vs, 0) == Some(v);
    ReadWord(g, w, vs, carry, Flags(flags) + [Yes(c, Some(v))], 2);
  }

  /** "-abofile" has its argument in the word, and the reading goes on with the next word. */
  lemma ArgumentAttached(g: Grammar, flags: string, c: char, arg: string, ws: seq<string>, carry: bool)
    requires AllFlags(g, flags) && TypeOf(g.optstring, c) in {REQUIRED, OPTIONAL} && (flags + [c])[0] != '-' &&
        arg != ""
    ensures Read(g, ["-" + flags + ([c] + arg)] + ws, 0, carry).found
         == Flags(flags) + [Yes(c, Some(arg))] + Read(g, ws, 0, carry).found
  {
    var w, back := "-" + flags + ([c] + arg), [c] + arg;
    hide TypeOf, Flags, Letters, Letter, LettersLeave, Read;
    ShortWord(g, flags, c, arg);
    var next := Next([w] + ws, 0);
    WordAttached(g, flags, c, arg, next);
    AttachedArgument(g, "-" + flags, c, arg, next);
    assert "-" + flags + [c] + arg == w;
    FlagsLeave(g, flags, back, next);
    ReadWord(g, w, ws, carry, Flags(flags) + [Yes(c, Some(arg))], 1);
    assert ws[0..] == ws;
  }

  /** "-abc" takes no word behind it. */
  lemma NothingBehind(g: Grammar, flags: string, c: char, ws: seq<string>, carry: bool)
    requires AllFlags(g, flags) && TypeOf(g.optstring, c) in {NONE, OPTIONAL} && (flags + [c])[0] != '-'
    ensures Read(g, ["-" + flags + [c]] + ws, 0, carry).found
         == Flags(flags) + [Yes(c, None)] + Read(g, ws, 0, carry).found
  {
    var w := "-" + flags + [c];
    hide TypeOf, Flags, Letters, Letter, LettersLeave, Read;
    ShortWord(g, flags, c, "");
    var next := Next([w] + ws, 0);
    WordFlags(g, flags, c, next);
    NoArgument(g, "-" + flags, c, next);
    FlagsLeave(g, flags, [c], next);
    ReadWord(g, w, ws, carry, Flags(flags) + [Yes(c, None)], 1);
    assert ws[0..] == ws;
  }

  // A long option, by what Long finds and how many words that uses up
  lemma ReadLong(g: Grammar, w: string, ws: seq<string>, carry: bool)
    requires g.long && IsLong(w)
    ensures var p := Long(g, w, 0, Next([w] + ws, 0));
            && p.count <= 1 + |ws|
            && Read(g, [w] + ws, 0, carry).found == [p.found] + Read(g, ws[p.count - 1..], 0, carry).found
  {
    hide Long, Read;
    var p := Long(g, w, 0, Next([w] + ws, 0));
    SubUnused(g, w, 0, Next([w] + ws, 0));
    ReadWord(g, w, ws, carry, [p.found], p.count);
  }

  /** "--name value" */
  lemma LongBehind(g: Grammar, name: string, i: nat, v: string, ws: seq<string>, carry: bool)
    requires g.long && name != "" && '=' !in name && Names(g.longs, name, i) && g.longs[i].argtype == REQUIRED
    ensures Read(g, ["--" + name, v] + ws, 0, carry).found
         == [Yes(g.longs[i].shortname, Some(v))] + Read(g, ws, 0, carry).found
  {
    hide Long, Read;
    var w, vs := "--" + name, [v] + ws;
    assert [w, v] + ws == [w] + vs && vs[1..] == ws && Next([w] + vs, 0) == Some(v);
    LongAlone(g, name, i, 0, Some(v));
    ReadLong(g, w, vs, carry);
  }

  // ---- one call ----

  /** "--" ends the options: it is moved in front of the words that are none, and nothing behind it is read. Without
      permute the first such word ends them. */
  lemma DashDashEnds(g: Grammar, before: seq<string>, ps: seq<string>, ws: seq<string>, sub: nat)
    requires AllPlain(g, ps)
    ensures var s := State(before + (ps + ["--"] + ws), |before|, sub);
            Call(g, s) == (if g.permute || ps == [] then State(before + ["--"] + ps + ws, |before| + 1, sub) else s,
                Done)
  {
    var o, k := |before|, |before| + |ps|;
    var args := before + (ps + ["--"] + ws);
    hide Parse, Plain;
    assert args[k] == "--";
    DashDashKind(g);
    assert forall i :: o <= i < k ==> args[i] == ps[i - o];
    FirstIs(g, args, o, k);
    assert args[..o] == before && args[k..k + 1] == ["--"] && args[o..k] == ps && args[k + 1..] == ws;
  }

  lemma DashDashKind(g: Grammar)
    ensures !Plain(g, "--") && IsDashDash("--")
  {
  }

  /** *longindex is the index of the entry with the name that was read; an unknown name leaves it alone. */
  lemma IndexOfName(g: Grammar, s: State, name: string, back: string, before: int)
    requires g.long && s.optind < |s.args| && s.args[s.optind] == "--" + (name + back)
    requires name + back != "" && '=' !in name && (back == "" || back[0] == '=')
    ensures forall i :: Names(g.longs, name, i) ==> LongIndex(g, s, before) == i
    ensures Unknown(g.longs, name) ==> LongIndex(g, s, before) == before
  {
    hide FindLong, Complaint;
    var w := s.args[s.optind];
    Dashes(name + back);
    NameIs(name, back);
    assert !Plain(g, w) && !IsShort(w) && !IsDashDash(w);
    forall i | Names(g.longs, name, i)
      ensures FindLong(g.longs, name) == i
    {
    }
  }

  lemma NameIs(name: string, back: string)
    requires '=' !in name && (back == "" || back[0] == '=')
    ensures NameOf(name + back) == name
  {
    FindSkips(name, back, '=');
  }

  /** For a letter it is the index of the last entry with that letter, or -1 if there is none. */
  lemma IndexOfLetter(g: Grammar, s: State, before: int)
    requires s.optind < |s.args| && IsShort(s.args[s.optind])
    ensures var (i, c) := (LongIndex(g, s, before), Call(g, s).1.opt);
            && -1 <= i < |g.longs| && (i >= 0 ==> g.longs[i].shortname == c)
            && forall k :: i < k < |g.longs| ==> g.longs[k].shortname != c
  {
    hide Parse, LastShort;
    assert !Plain(g, s.args[s.optind]) && !IsDashDash(s.args[s.optind]);
    CallHere(g, s);
  }
}
