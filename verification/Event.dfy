/** Events of rt-thread/src/ipc.c:1021-1273: 32 flags, and waiters for all or any of some of them, who may
    clear what they received. A method is one region with interrupts disabled. */
module Event {
  import opened Sequences
  import opened WaitList

  // RT_EVENT_FLAG_AND 1, RT_EVENT_FLAG_OR 2, RT_EVENT_FLAG_CLEAR 4
  datatype Want = Want(bits: bv32, info: bv8)

  predicate And(w: Want) { w.info & 1 != 0 }
  predicate Or(w: Want) { w.info & 2 != 0 }
  predicate Clear(w: Want) { w.info & 4 != 0 }

  // ---- sets of flags ----

  function Common(a: bv32, b: bv32): bv32 { a & b }
  function Minus(a: bv32, b: bv32): bv32 { a & !b }
  predicate Subset(a: bv32, b: bv32) { a & b == a }
  predicate Meets(a: bv32, b: bv32) { a & b != 0 }

  lemma SubsetTrans(a: bv32, b: bv32, c: bv32)
    requires Subset(a, b) && Subset(b, c)
    ensures Subset(a, c)
  {
  }

  lemma MeetsMore(a: bv32, b: bv32, c: bv32)
    requires Meets(a, b) && Subset(b, c)
    ensures Meets(a, c)
  {
  }

  lemma MinusSubset(a: bv32, b: bv32)
    ensures Subset(Minus(a, b), a)
  {
  }

  lemma CommonSubset(a: bv32, b: bv32)
    ensures Subset(Common(a, b), b) && (Subset(a, b) ==> Common(a, b) == a)
  {
  }

  lemma GoneDisjoint(got: bv32, flags: bv32, later: bv32)
    requires Subset(later, Minus(flags, got))
    ensures !Meets(got, later)
  {
  }

  // ---- waiting ----

  // The condition a waiter waits for
  predicate Met(w: Want, flags: bv32) {
    if And(w) then Subset(w.bits, flags) else Or(w) && Meets(w.bits, flags)
  }

  // What a satisfied waiter receives: the walk narrows the set of an OR waiter
  function Received(w: Want, flags: bv32): bv32 {
    if And(w) then w.bits else Common(w.bits, flags)
  }

  // The flags after a waiter was satisfied
  function After(w: Want, flags: bv32): bv32 {
    if Clear(w) then Minus(flags, Received(w, flags)) else flags
  }

  /** By the bits of event_info: with RT_EVENT_FLAG_AND all wanted flags must be set and all are received; with
      RT_EVENT_FLAG_OR some, and those are received; and only with RT_EVENT_FLAG_CLEAR do they go. */
  lemma WantBits(w: Want, flags: bv32)
    ensures w.info & 1 != 0 ==> (Met(w, flags) <==> Subset(w.bits, flags)) && Received(w, flags) == w.bits
    ensures w.info & 1 == 0 && w.info & 2 != 0 ==> (Met(w, flags) <==> Meets(w.bits, flags))
    ensures w.info & 1 == 0 ==> Received(w, flags) == Common(w.bits, flags)
    ensures w.info & 3 == 0 ==> !Met(w, flags)
    ensures After(w, flags) == if w.info & 4 != 0 then Minus(flags, Received(w, flags)) else flags
  {
    hide Subset, Meets, Common, Minus;
    InfoBits(w.info);
  }

  lemma InfoBits(info: bv8)
    ensures info & 3 == 0 ==> info & 1 == 0 && info & 2 == 0
  {
  }

  /** More flags never hurt. */
  lemma MetSubset(w: Want, a: bv32, b: bv32)
    requires Subset(a, b) && Met(w, a)
    ensures Met(w, b)
  {
    hide Subset, Meets, And, Or;
    if And(w) {
      SubsetTrans(w.bits, a, b);
    } else {
      MeetsMore(w.bits, a, b);
    }
  }

  lemma ReceivedSubset(w: Want, flags: bv32)
    requires Met(w, flags)
    ensures Subset(Received(w, flags), flags) && Received(w, flags) == Common(w.bits, flags)
    ensures Subset(After(w, flags), flags)
  {
    hide Subset, Meets, And, Or, Clear, Minus, Common;
    CommonSubset(w.bits, flags);
    MinusSubset(flags, Received(w, flags));
    SubsetSelf(flags);
  }

  lemma SubsetSelf(a: bv32)
    ensures Subset(a, a)
  {
  }

  // ---- the walk of rt_event_send over the waiters ----

  datatype Delivery = Delivery(t: Tid, got: bv32, clears: bool)

  datatype Walked = Walked(flags: bv32, rest: seq<Tid>, given: seq<Delivery>)

  ghost predicate Wanted(list: seq<Tid>, wants: map<Tid, Want>) {
    forall t :: t in list ==> t in wants
  }

  function Walk(list: seq<Tid>, wants: map<Tid, Want>, flags: bv32): Walked
    requires Wanted(list, wants)
  {
    if list == [] then Walked(flags, [], [])
    else
      var w := wants[list[0]];
      assert Wanted(list[1..], wants);
      if Met(w, flags) then
        var r := Walk(list[1..], wants, After(w, flags));
        r.(given := [Delivery(list[0], Received(w, flags), Clear(w))] + r.given)
      else
        var r := Walk(list[1..], wants, flags);
        r.(rest := [list[0]] + r.rest)
  }

  /** Whoever is still asleep after the walk is not satisfied by the flags that are left, although other
      waiters cleared flags while the walk went on. */
  lemma {:induction false} WalkLeavesUnmet(list: seq<Tid>, wants: map<Tid, Want>, flags: bv32)
    requires Wanted(list, wants)
    ensures Subset(Walk(list, wants, flags).flags, flags)
    ensures forall t :: t in Walk(list, wants, flags).rest ==>
        t in list && !Met(wants[t], Walk(list, wants, flags).flags)
  {
    hide Subset, Met, Received, After, Clear;
    if list == [] {
      SubsetSelf(flags);
    } else {
      var w := wants[list[0]];
      assert Wanted(list[1..], wants);
      var next := if Met(w, flags) then After(w, flags) else flags;
      var r := Walk(list[1..], wants, next);
      WalkLeavesUnmet(list[1..], wants, next);
      if Met(w, flags) {
        ReceivedSubset(w, flags);
        SubsetTrans(r.flags, next, flags);
      } else if Met(w, r.flags) {
        MetSubset(w, r.flags, flags);
      }
    }
  }

  // Nothing that a clearing delivery took is among `flags`
  predicate Taken(d: Delivery, flags: bv32) {
    d.clears ==> !Meets(d.got, flags)
  }

  /** What each woken waiter got was set when the walk began, and a flag that one of them cleared is
      neither given to a later one nor left in the event. */
  lemma {:induction false} ClearedOnce(list: seq<Tid>, wants: map<Tid, Want>, flags: bv32)
    requires Wanted(list, wants)
    ensures forall d :: d in Walk(list, wants, flags).given ==>
        Subset(d.got, flags) && Taken(d, Walk(list, wants, flags).flags)
    ensures var given := Walk(list, wants, flags).given;
            forall i, j :: 0 <= i < j < |given| ==> Taken(given[i], given[j].got)
  {
    hide Subset, Met, Received, After, Clear, Taken;
    if list != [] {
      var w := wants[list[0]];
      assert Wanted(list[1..], wants);
      var next := if Met(w, flags) then After(w, flags) else flags;
      var r := Walk(list[1..], wants, next);
      ClearedOnce(list[1..], wants, next);
      WalkLeavesUnmet(list[1..], wants, next);
      if Met(w, flags) {
        var d := Delivery(list[0], Received(w, flags), Clear(w));
        ReceivedSubset(w, flags);
        TakenLater(w, flags, d, r.flags);
        forall e | e in r.given
          ensures Subset(e.got, flags) && Taken(d, e.got)
        {
          SubsetTrans(e.got, next, flags);
          TakenLater(w, flags, d, e.got);
        }
      }
    }
  }

  lemma TakenLater(w: Want, flags: bv32, d: Delivery, later: bv32)
    requires d.got == Received(w, flags) && d.clears == Clear(w) && Subset(later, After(w, flags))
    ensures Taken(d, later)
  {
    hide Subset, Meets, Received, Clear, Minus;
    if Clear(w) {
      GoneDisjoint(d.got, flags, later);
    }
  }

  ghost function Names(given: seq<Delivery>): set<Tid> {
    set d | d in given :: d.t
  }

  /** Every waiter either stays, in its old order, or is woken; none is lost. */
  lemma {:induction false} WalkPartitions(list: seq<Tid>, wants: map<Tid, Want>, flags: bv32)
    requires Wanted(list, wants) && Distinct(list)
    ensures var r := Walk(list, wants, flags);
            && |r.rest| + |r.given| == |list| && Distinct(r.rest)
            && (forall t :: t in list <==> t in r.rest || t in Names(r.given))
            && (forall t :: t in r.rest ==> t !in Names(r.given))
  {
    hide Subset, Met, Received, After, Clear;
    if list != [] {
      var w := wants[list[0]];
      assert Wanted(list[1..], wants);
      var next := if Met(w, flags) then After(w, flags) else flags;
      var r := Walk(list[1..], wants, next);
      WalkPartitions(list[1..], wants, next);
      DistinctTail(list);
      if Met(w, flags) {
        var d := Delivery(list[0], Received(w, flags), Clear(w));
        NamesCons(d, r.given);
      } else {
        assert forall t :: t in [list[0]] + r.rest <==> t == list[0] || t in r.rest;
        DistinctCons(list[0], r.rest);
      }
    }
  }

  lemma NamesCons(d: Delivery, given: seq<Delivery>)
    ensures Names([d] + given) == {d.t} + Names(given)
  {
    assert d in [d] + given;
    assert forall e :: e in [d] + given <==> e == d || e in given;
  }

  lemma NamesSnoc(given: seq<Delivery>, d: Delivery)
    ensures Names(given + [d]) == Names(given) + {d.t}
  {
    assert d in given + [d];
    assert forall e :: e in given + [d] <==> e == d || e in given;
  }

  // ---- each waiter at its turn ----

  lemma WalkHead(list: seq<Tid>, wants: map<Tid, Want>, flags: bv32)
    requires list != [] && Wanted(list, wants) && Wanted(list[1..], wants)
    ensures var w := wants[list[0]];
            Walk(list, wants, flags)
            == if Met(w, flags)
               then
                 var r := Walk(list[1..], wants, After(w, flags));
                 r.(given := [Delivery(list[0], Received(w, flags), Clear(w))] + r.given)
               else
                 var r := Walk(list[1..], wants, flags); r.(rest := [list[0]] + r.rest)
  {
    hide Met, Received, After, Clear;
  }

  // The walk over one waiter and then over the rest
  lemma {:induction false} WalkConcat(a: seq<Tid>, b: seq<Tid>, wants: map<Tid, Want>, flags: bv32)
    requires Wanted(a, wants) && Wanted(b, wants) && Wanted(a + b, wants)
    ensures var r := Walk(a, wants, flags);
            var r' := Walk(b, wants, r.flags);
            Walk(a + b, wants, flags) == Walked(r'.flags, r.rest + r'.rest, r.given + r'.given)
  {
    hide Walk, Met, Received, After, Clear;
    if a == [] {
      WalkNone(wants, flags);
      assert a + b == b && forall r: Walked :: [] + r.rest == r.rest && [] + r.given == r.given;
    } else {
      var next := if Met(wants[a[0]], flags) then After(wants[a[0]], flags) else flags;
      assert (a + b)[1..] == a[1..] + b && (a + b)[0] == a[0];
      assert Wanted(a[1..], wants) && Wanted(a[1..] + b, wants);
      WalkConcat(a[1..], b, wants, next);
      WalkHead(a, wants, flags);
      WalkHead(a + b, wants, flags);
    }
  }

  lemma WalkNone(wants: map<Tid, Want>, flags: bv32)
    ensures Walk([], wants, flags) == Walked(flags, [], [])
  {
  }

  // The flags when the turn comes to index i
  function TurnFlags(list: seq<Tid>, wants: map<Tid, Want>, flags: bv32, i: nat): bv32
    requires Wanted(list, wants) && i <= |list|
  {
    Walk(list[..i], wants, flags).flags
  }

  /** A waiter is woken if and only if its condition holds at its turn, and receives what is due then; each turn starts
      from what the one before left. */
  lemma AtItsTurn(list: seq<Tid>, wants: map<Tid, Want>, flags: bv32, i: nat)
    requires Wanted(list, wants) && Distinct(list) && i < |list|
    ensures var (r, w, f) := (Walk(list, wants, flags), wants[list[i]], TurnFlags(list, wants, flags, i));
            && (Met(w, f) ==> Delivery(list[i], Received(w, f), Clear(w)) in r.given && list[i] !in r.rest)
            && (!Met(w, f) ==> list[i] in r.rest && list[i] !in Names(r.given))
            && TurnFlags(list, wants, flags, 0) == flags && TurnFlags(list, wants, flags, |list|) == r.flags
            && TurnFlags(list, wants, flags, i + 1) == if Met(w, f) then After(w, f) else f
  {
    hide Walk, Met, Received, After, Clear;
    var t, f := list[i], TurnFlags(list, wants, flags, i);
    assert list[..i] + list[i..] == list && list[i..] == [t] + list[i + 1..];
    assert list[..i + 1] == list[..i] + [t] && list[..0] == [] && list[..|list|] == list;
    assert Wanted(list[i..], wants) && Wanted(list[i + 1..], wants) && Wanted([t], wants);
    WalkConcat(list[..i], list[i..], wants, flags);
    WalkConcat(list[..i], [t], wants, flags);
    WalkHead([t], wants, f);
    WalkHead(list[i..], wants, f);
    assert [t][1..] == [] && list[i..][1..] == list[i + 1..];
    WalkNone(wants, flags);
    WalkNone(wants, f);
    WalkNone(wants, After(wants[t], f));
    WalkPartitions(list, wants, flags);
    var r := Walk(list, wants, flags);
    if Met(wants[t], f) {
      var d := Delivery(t, Received(wants[t], f), Clear(wants[t]));
      assert d in r.given && d.t in Names(r.given);
    } else {
      assert t in r.rest;
    }
  }

  // ---- which flags go ----

  /** The flags after the walk are those before it without exactly what the clearing deliveries got: those are gone, and
      any set of flags that none of them got is as it was. A delivery clears if its waiter asked for that. */
  lemma {:induction false} OnlyClearedGo(list: seq<Tid>, wants: map<Tid, Want>, flags: bv32, m: bv32)
    requires Wanted(list, wants)
    ensures var r := Walk(list, wants, flags);
            && (forall d :: d in r.given ==> d.t in list && (d.clears <==> wants[d.t].info & 4 != 0))
            && (forall d :: d in r.given && d.clears ==> !Meets(d.got, r.flags))
            && ((forall d :: d in r.given && d.clears ==> !Meets(d.got, m)) ==> Common(r.flags, m) == Common(flags, m))
  {
    hide Walk, Met, Received, After, Minus, Meets, Common, Subset;
    var r := Walk(list, wants, flags);
    ClearedOnce(list, wants, flags);
    assert forall d :: d in r.given && d.clears ==> Taken(d, r.flags) && !Meets(d.got, r.flags);
    if list == [] {
      WalkNone(wants, flags);
    } else {
      var w := wants[list[0]];
      var next := if Met(w, flags) then After(w, flags) else flags;
      assert Wanted(list[1..], wants);
      OnlyClearedGo(list[1..], wants, next, m);
      WalkHead(list, wants, flags);
      var r' := Walk(list[1..], wants, next);
      if Met(w, flags) {
        var d := Delivery(list[0], Received(w, flags), Clear(w));
        assert r.given == [d] + r'.given && d in r.given;
        if !Clear(w) || !Meets(d.got, m) {
          AfterKeeps(w, flags, m);
        }
      }
    }
  }

  lemma AfterKeeps(w: Want, flags: bv32, m: bv32)
    requires Clear(w) ==> !Meets(Received(w, flags), m)
    ensures Common(After(w, flags), m) == Common(flags, m)
  {
    hide Received, Meets, Common, Minus;
    if Clear(w) {
      MinusKeeps(flags, Received(w, flags), m);
    }
  }

  lemma MinusKeeps(a: bv32, b: bv32, m: bv32)
    requires !Meets(b, m)
    ensures Common(Minus(a, b), m) == Common(a, m)
  {
  }

  /** When nobody clears, the flags stay, and the waiters woken are exactly those whose condition holds. */
  lemma {:induction false} NobodyClears(list: seq<Tid>, wants: map<Tid, Want>, flags: bv32)
    requires Wanted(list, wants) && Distinct(list) && forall t :: t in list ==> wants[t].info & 4 == 0
    ensures Walk(list, wants, flags).flags == flags
    ensures forall t :: t in Names(Walk(list, wants, flags).given) <==> t in list && Met(wants[t], flags)
    ensures forall t :: t in Walk(list, wants, flags).rest <==> t in list && !Met(wants[t], flags)
  {
    hide Walk, Met, Received;
    if list == [] {
      WalkNone(wants, flags);
    } else {
      var w := wants[list[0]];
      assert Wanted(list[1..], wants);
      DistinctTail(list);
      assert After(w, flags) == flags;
      NobodyClears(list[1..], wants, flags);
      WalkHead(list, wants, flags);
      var r := Walk(list[1..], wants, flags);
      if Met(w, flags) {
        NamesCons(Delivery(list[0], Received(w, flags), Clear(w)), r.given);
      } else {
        assert forall t :: t in [list[0]] + r.rest <==> t == list[0] || t in r.rest;
      }
    }
  }

  // The walk in front of index k with `given` woken so far and `kept` passed over
  ghost predicate Progress(all: Walked, given: seq<Delivery>, kept: seq<Tid>, r: Walked) {
    all == Walked(r.flags, kept + r.rest, given + r.given)
  }

  lemma WalkStep(list: seq<Tid>, i: nat, wants: map<Tid, Want>, flags: bv32, all: Walked, given: seq<Delivery>)
    requires Wanted(list, wants) && i < |list| && Wanted(list[i..], wants) && Wanted(list[i + 1..], wants)
    requires Progress(all, given, list[..i], Walk(list[i..], wants, flags))
    ensures var w := wants[list[i]];
            if Met(w, flags) then
              Progress(all, given + [Delivery(list[i], Received(w, flags), Clear(w))], list[..i],
                  Walk(list[i + 1..], wants, After(w, flags)))
            else
              Progress(all, given, list[..i + 1], Walk(list[i + 1..], wants, flags))
  {
    hide Met, Received, After, Clear;
    assert list[i..][1..] == list[i + 1..] && list[i..][0] == list[i];
    var w := wants[list[i]];
    if Met(w, flags) {
      var r := Walk(list[i + 1..], wants, After(w, flags));
      var d := Delivery(list[i], Received(w, flags), Clear(w));
      assert given + ([d] + r.given) == (given + [d]) + r.given;
    } else {
      var r := Walk(list[i + 1..], wants, flags);
      assert list[..i] + ([list[i]] + r.rest) == list[..i + 1] + r.rest;
    }
  }

  ghost predicate Asleep(list: seq<Tid>, wants: map<Tid, Want>, flags: bv32) {
    forall t :: t in list && t in wants ==> !Met(wants[t], flags)
  }

  // event_set of a woken thread is what it received
  ghost predicate Paired(woken: map<Tid, bv32>, wants: map<Tid, Want>) {
    forall t :: t in woken ==> t in wants && wants[t].bits == woken[t]
  }

  ghost predicate Errors(list: seq<Tid>, woken: map<Tid, bv32>, failed: set<Tid>, error: map<Tid, Err>) {
    && (forall t :: t in list || t in woken ==> t in error && error[t] == EOK)
    && (forall t :: t in failed ==> t in error && error[t] != EOK)
  }

  ghost function Woken(woken: map<Tid, bv32>, given: seq<Delivery>): map<Tid, bv32> {
    if given == [] then woken
    else var d := given[|given| - 1]; Woken(woken, given[..|given| - 1])[d.t := d.got]
  }

  lemma WokenSnoc(woken: map<Tid, bv32>, given: seq<Delivery>, d: Delivery)
    ensures Woken(woken, given + [d]) == Woken(woken, given)[d.t := d.got]
  {
    assert (given + [d])[..|given|] == given;
  }

  lemma {:induction false} WokenKeys(woken: map<Tid, bv32>, given: seq<Delivery>)
    ensures Woken(woken, given).Keys == woken.Keys + Names(given)
    ensures forall t :: t in woken && t !in Names(given) ==> Woken(woken, given)[t] == woken[t]
  {
    if given != [] {
      var d, rest := given[|given| - 1], given[..|given| - 1];
      assert given == rest + [d];
      WokenKeys(woken, rest);
      NamesSnoc(rest, d);
    }
  }

  /** Each woken thread is told what its delivery was. */
  lemma {:induction false} WokenGot(woken: map<Tid, bv32>, given: seq<Delivery>, i: nat)
    requires i < |given| && forall j :: i < j < |given| ==> given[j].t != given[i].t
    ensures given[i].t in Woken(woken, given) && Woken(woken, given)[given[i].t] == given[i].got
    decreases |given|
  {
    if i < |given| - 1 {
      WokenGot(woken, given[..|given| - 1], i);
    }
  }

  /** No thread is woken twice. */
  lemma {:induction false} GivenDistinct(list: seq<Tid>, wants: map<Tid, Want>, flags: bv32)
    requires Wanted(list, wants) && Distinct(list)
    ensures var given := Walk(list, wants, flags).given;
            forall i, j :: 0 <= i < j < |given| ==> given[i].t != given[j].t
  {
    hide Walk, Met, Received, After, Clear;
    if list == [] {
      WalkNone(wants, flags);
    } else {
      var next := if Met(wants[list[0]], flags) then After(wants[list[0]], flags) else flags;
      assert Wanted(list[1..], wants);
      DistinctTail(list);
      GivenDistinct(list[1..], wants, next);
      WalkPartitions(list[1..], wants, next);
      WalkHead(list, wants, flags);
      var r := Walk(list[1..], wants, next);
      assert forall d :: d in r.given ==> d.t in Names(r.given);
    }
  }

  class Event {
    const flag: Flag
    var flags: bv32                 // event->set
    var suspended: seq<Tid>
    var wants: map<Tid, Want>       // thread->event_set and thread->event_info
    var error: map<Tid, Err>
    // Resumed and not re-run yet: with flags received, and by a timeout or a reset
    ghost var woken: map<Tid, bv32>
    ghost var failed: set<Tid>

    ghost predicate Valid()
      reads this
    {
      && Wanted(suspended, wants) && Distinct(suspended)
      && Asleep(suspended, wants, flags)
      && Paired(woken, wants)
      && (forall t :: t in suspended ==> t !in woken && t !in failed)
      && woken.Keys !! failed
      && Errors(suspended, woken, failed, error)
    }

    /** No waiter sleeps while its condition holds, and a woken one is told what it received. */
    lemma NobodyMissed(t: Tid)
      requires Valid()
      ensures t in suspended ==> t in wants && !Met(wants[t], flags) && t !in woken && t !in failed
      ensures t in woken ==> t in wants && wants[t].bits == woken[t] && t in error && error[t] == EOK
    {
    }

    ghost predicate Outside(t: Tid)
      reads this
    {
      t !in suspended && t !in woken && t !in failed
    }

    constructor (f: Flag)
      ensures Valid() && flags == 0 && suspended == [] && woken == map[] && failed == {}
    {
      flag, flags, suspended, wants, error := f, 0, [], map[], map[];
      woken, failed := map[], {};
    }

    // rt_thread_resume of the waiter at index i, whose set was narrowed to what it received
    method Wake(i: nat, got: bv32)
      requires Distinct(suspended) && i < |suspended| && suspended[i] in wants
      modifies `suspended, `wants, `woken
      ensures suspended == old(suspended)[..i] + old(suspended)[i + 1..]
      ensures wants == old(wants)[old(suspended)[i] := old(wants)[old(suspended)[i]].(bits := got)]
      ensures woken == old(woken)[old(suspended)[i] := got]
    {
      var t := suspended[i];
      wants := wants[t := wants[t].(bits := got)];
      suspended := suspended[..i] + suspended[i + 1..];
      woken := woken[t := got];
    }

    // The loop of rt_event_send
    method WalkList()
      requires Wanted(suspended, wants) && Distinct(suspended) && Paired(woken, wants)
      requires forall t :: t in suspended ==> t !in woken
      modifies `flags, `suspended, `wants, `woken
      ensures old(Wanted(suspended, wants))
      ensures var w := Walk(old(suspended), old(wants), old(flags));
              && flags == w.flags && suspended == w.rest && woken == Woken(old(woken), w.given)
      ensures Paired(woken, wants) && (forall t :: t in suspended ==>
          t in wants && t in old(wants) && wants[t] == old(wants)[t])
    {
      hide Walk, Met, Received, After, Clear, Subset, Woken;
      ghost var wants0, woken0 := wants, woken;
      ghost var all := Walk(suspended, wants, flags);
      ghost var given: seq<Delivery> := [];
      var i := 0;
      assert suspended[0..] == suspended;
      StartWalk(all, woken);
      while i < |suspended|
        invariant 0 <= i <= |suspended| && Distinct(suspended) && Wanted(suspended[i..], wants0)
        invariant Progress(all, given, suspended[..i], Walk(suspended[i..], wants0, flags))
        invariant forall t :: t in suspended ==> t in wants && t in wants0 && wants[t] == wants0[t] && t !in woken
        invariant woken == Woken(woken0, given) && Paired(woken, wants)
        decreases |suspended| - i
      {
        var t := suspended[i];
        ghost var before := suspended;
        assert Wanted(suspended[i + 1..], wants0);
        WalkStep(suspended, i, wants0, flags, all, given);
        if Met(wants[t], flags) {
          var got := Received(wants[t], flags);
          ghost var d := Delivery(t, got, Clear(wants[t]));
          flags := After(wants[t], flags);
          Wake(i, got);
          WakeOne(before, suspended, i);
          WokenSnoc(woken0, given, d);
          given := given + [d];
        } else {
          i := i + 1;
        }
      }
      EndWalk(all, given, suspended, wants0, flags);
    }

    /** rt_event_send: the flags are set and the waiters walked; afterwards nobody sleeps whose condition holds. */
    method Send(bits: bv32) returns (r: Err)
      requires Valid()
      modifies `flags, `suspended, `wants, `woken
      ensures Valid()
      ensures r == if bits == 0 then ERROR else EOK
      ensures bits == 0 ==> flags == old(flags) && suspended == old(suspended) && woken == old(woken)
      ensures old(Wanted(suspended, wants))
      ensures bits != 0 ==>
                var w := Walk(old(suspended), old(wants), old(flags) | bits);
                flags == w.flags && suspended == w.rest && woken == Woken(old(woken), w.given)
    {
      hide Walk, Met, Subset, Woken;
      if bits == 0 {
        return ERROR;
      }
      flags := flags | bits;
      WalkPartitions(suspended, wants, flags);
      WalkLeavesUnmet(suspended, wants, flags);
      WokenKeys(woken, Walk(suspended, wants, flags).given);
      WalkList();
      r := EOK;
    }

    /** rt_event_recv up to the call of the scheduler. */
    method Recv(t: Tid, bits: bv32, info: bv8, timeout: int, prio: map<Tid, nat>)
        returns (done: bool, r: Err, got: bv32)
      requires Valid() && Outside(t) && t in prio && Known(suspended, prio)
      requires And(Want(bits, info)) || Or(Want(bits, info))
      modifies `flags, `suspended, `wants, `error
      ensures Valid()
      ensures bits == 0 ==> done && r == ERROR && flags == old(flags) && suspended == old(suspended)
      ensures bits != 0 && Met(Want(bits, info), old(flags)) ==>
                done && r == EOK && got == Common(old(flags), bits) && suspended == old(suspended)
                && flags == if Clear(Want(bits, info)) then Minus(old(flags), bits) else old(flags)
      ensures bits != 0 && !Met(Want(bits, info), old(flags)) ==>
                flags == old(flags) && (done <==> timeout == 0) &&
                    (done ==> r == ETIMEOUT && suspended == old(suspended))
      ensures !done ==> wants == old(wants)[t := Want(bits, info)] && Joined(old(suspended), suspended, t, flag, prio)
    {
      hide Met, And, Or, Clear, Minus, Common, Paired, Wanted, Asleep, Errors;
      var w := Want(bits, info);
      got := 0;
      if bits == 0 {
        return true, ERROR, 0;
      }
      if Met(w, flags) {
        done, r := true, EOK;
        got := Consume(t, w);
      } else if timeout == 0 {
        error := error[t := ETIMEOUT];
        ErrorElsewhere(suspended, woken, failed, old(error), error, t);
        done, r := true, ETIMEOUT;
      } else {
        Block(t, w, prio);
        done, r := false, EOK;
      }
    }

    // The branch of rt_event_recv that finds its flags set
    method Consume(t: Tid, w: Want) returns (got: bv32)
      requires Valid() && Outside(t)
      modifies `flags, `error
      ensures Valid() && got == Common(old(flags), w.bits)
      ensures flags == if Clear(w) then Minus(old(flags), w.bits) else old(flags)
    {
      hide Met, Clear, Minus, Common, Paired, Wanted, Asleep, Errors;
      error := error[t := EOK];
      ErrorElsewhere(suspended, woken, failed, old(error), error, t);
      got := Common(flags, w.bits);
      if Clear(w) {
        MinusSubset(flags, w.bits);
        AsleepLess(suspended, wants, flags, Minus(flags, w.bits));
        flags := Minus(flags, w.bits);
      }
    }

    // The branch that waits
    method Block(t: Tid, w: Want, prio: map<Tid, nat>)
      requires Valid() && Outside(t) && t in prio && Known(suspended, prio) && !Met(w, flags)
      modifies `suspended, `wants, `error
      ensures Valid() && wants == old(wants)[t := w] && Joined(old(suspended), suspended, t, flag, prio)
    {
      hide Met, Wanted, Asleep, Paired, Errors, Distinct;
      ghost var k;
      var list;
      list, k := Enqueue(suspended, t, flag, prio);
      InsertedDistinct(suspended, list, k, t);
      WaiterAdded(suspended, list, wants, woken, flags, t, w);
      ErrorAdded(suspended, list, woken, failed, error, t);
      error := error[t := EOK];
      wants := wants[t := w];
      suspended := list;
    }

    /** What a blocked rt_event_recv returns. */
    method Rerun(t: Tid) returns (r: Err, got: bv32)
      requires Valid() && (t in woken || t in failed)
      modifies `woken, `failed
      ensures Valid() && Outside(t) && (r == EOK <==> t in old(woken)) && (r == EOK ==> got == old(woken)[t])
      ensures woken == old(woken) - {t} && failed == old(failed) - {t}
    {
      hide Met;
      r, got := error[t], 0;
      if r == EOK {
        got := wants[t].bits;
      }
      woken, failed := woken - {t}, failed - {t};
    }

    // A waiter leaves the list with an error
    method Fail(t: Tid, e: Err)
      requires Valid() && t in suspended && e != EOK
      modifies `suspended, `error, `failed
      ensures Valid() && suspended == Without(old(suspended), t) && failed == old(failed) + {t}
      ensures Members(suspended) == old(Members(suspended)) - {t} && |suspended| < |old(suspended)|
    {
      hide Met, Without, Paired;
      WithoutMembers(suspended, t);
      error := error[t := e];
      suspended := Without(suspended, t);
      failed := failed + {t};
    }

    // rt_thread_timeout of a waiter
    method Timeout(t: Tid)
      requires Valid() && t in suspended
      modifies `suspended, `error, `failed
      ensures Valid() && suspended == Without(old(suspended), t) && failed == old(failed) + {t}
    {
      Fail(t, ETIMEOUT);
    }

    // rt_event_control(RT_IPC_CMD_RESET)
    method Reset()
      requires Valid()
      modifies `flags, `suspended, `error, `failed
      ensures Valid() && suspended == [] && flags == 0
      ensures failed == old(failed) + old(Members(suspended))
    {
      hide Met, Asleep, Paired, Wanted, Errors, Distinct;
      while suspended != []
        invariant Valid() && failed + Members(suspended) == old(failed) + old(Members(suspended))
        decreases |suspended|
      {
        Fail(suspended[0], ERROR);
      }
      NobodyAsleep(wants, 0);
      flags := 0;
    }
  }

  lemma WaiterAdded(list: seq<Tid>, list': seq<Tid>, wants: map<Tid, Want>, woken: map<Tid, bv32>, flags: bv32, t: Tid,
      w: Want)
    requires Wanted(list, wants) && Asleep(list, wants, flags) && Paired(woken, wants)
    requires t !in list && t !in woken && !Met(w, flags) && forall x :: x in list' <==> x in list || x == t
    ensures Wanted(list', wants[t := w]) && Asleep(list', wants[t := w], flags) && Paired(woken, wants[t := w])
  {
    hide Met;
  }

  lemma ErrorAdded(list: seq<Tid>, list': seq<Tid>, woken: map<Tid, bv32>, failed: set<Tid>, error: map<Tid, Err>,
      t: Tid)
    requires Errors(list, woken, failed, error) && t !in failed && forall x :: x in list' <==> x in list || x == t
    ensures Errors(list', woken, failed, error[t := EOK])
  {
  }

  lemma NobodyAsleep(wants: map<Tid, Want>, flags: bv32)
    ensures Asleep([], wants, flags)
  {
  }

  // The error of a thread outside does not matter
  lemma ErrorElsewhere(list: seq<Tid>, woken: map<Tid, bv32>, failed: set<Tid>, error: map<Tid, Err>,
      error': map<Tid, Err>, t: Tid)
    requires Errors(list, woken, failed, error) && t !in list && t !in woken && t !in failed
    requires forall x :: x in error && x != t ==> x in error' && error'[x] == error[x]
    ensures Errors(list, woken, failed, error')
  {
  }

  lemma StartWalk(all: Walked, woken: map<Tid, bv32>)
    ensures Progress(all, [], [], all) && Woken(woken, []) == woken
  {
    assert [] + all.rest == all.rest && [] + all.given == all.given;
  }

  lemma EndWalk(all: Walked, given: seq<Delivery>, list: seq<Tid>, wants: map<Tid, Want>, flags: bv32)
    requires Wanted(list[|list|..], wants) && Progress(all, given, list[..|list|], Walk(list[|list|..], wants, flags))
    ensures all == Walked(flags, list, given)
  {
  }

  lemma WakeOne(list: seq<Tid>, list': seq<Tid>, i: nat)
    requires i < |list| && list' == list[..i] + list[i + 1..] && Distinct(list)
    ensures Distinct(list') && list'[..i] == list[..i] && list'[i..] == list[i + 1..]
    ensures forall t :: t in list' ==> t in list && t != list[i]
  {
  }

  lemma AsleepLess(list: seq<Tid>, wants: map<Tid, Want>, flags: bv32, flags': bv32)
    requires Asleep(list, wants, flags) && Subset(flags', flags)
    ensures Asleep(list, wants, flags')
  {
    hide Met, Subset;
    forall t | t in list && t in wants
      ensures !Met(wants[t], flags')
    {
      if Met(wants[t], flags') {
        MetSubset(wants[t], flags', flags);
      }
    }
  }
}
