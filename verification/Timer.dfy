/** rt-thread/src/timer.c: timers in a skip list of `levels` rows, compared by wrapping ticks. */
module Timer {
  import Sequences
  import opened TimerSpec

  const TICK_MOD: nat := 0x1_0000_0000
  const SKIP_LIST_MASK: bv32 := 3  // RT_TIMER_SKIP_LIST_MASK

  datatype Object = Object(init: nat, timeoutTick: nat, periodic: bool, activated: bool)

  // rt_tick_t subtraction
  function TickSub(a: int, b: int): nat {
    (a - b) % TICK_MOD
  }

  /** While both deadlines lie in the same half window, the wrapping difference orders them. */
  lemma TickOrder(now: nat, a: nat, b: nat)
    requires now <= a < now + HALF && now <= b < now + HALF
    ensures TickSub(a % TICK_MOD, b % TICK_MOD) == 0 <==> a == b
    ensures 0 < TickSub(a % TICK_MOD, b % TICK_MOD) < HALF <==> a > b
  {
    var d := a % TICK_MOD - b % TICK_MOD;
    var k := a / TICK_MOD - b / TICK_MOD;
    assert a - b == d + k * TICK_MOD;
    assert d % TICK_MOD == if a >= b then a - b else a - b + TICK_MOD;
  }

  /** rt_timer_check's test: a pending timer is due exactly when its deadline is now. */
  lemma DueTest(now: nat, due: nat)
    requires now <= due < now + HALF
    ensures TickSub(now % TICK_MOD, due % TICK_MOD) < HALF <==> due == now
  {
    TickOrder(now, now, due);
    TickOrder(now, due, now);
  }

  // ---- one row of the skip list ----

  predicate Row(r: seq<nat>, ent: map<nat, Entry>) {
    && (forall x :: x in r ==> x in ent && ent[x].id == x)
    && (forall i, j :: 0 <= i < j < |r| ==> Before(ent[r[i]], ent[r[j]]))
  }

  function Queue(r: seq<nat>, ent: map<nat, Entry>): (q: seq<Entry>)
    requires forall x :: x in r ==> x in ent
    ensures |q| == |r| && forall i :: 0 <= i < |r| ==> q[i] == ent[r[i]]
  {
    seq(|r|, i requires 0 <= i < |r| => ent[r[i]])
  }

  lemma QueueMembers(r: seq<nat>, ent: map<nat, Entry>)
    requires Row(r, ent)
    ensures forall e :: e in Queue(r, ent) <==> e.id in r && e == ent[e.id]
    ensures Ordered(Queue(r, ent))
  {
    forall x | x in r ensures ent[x] in Queue(r, ent) {
      var i :| 0 <= i < |r| && r[i] == x;
      assert Queue(r, ent)[i] == ent[x];
    }
    forall i, j | 0 <= i < j < |r| ensures r[i] != r[j] {
      assert Before(ent[r[i]], ent[r[j]]);
    }
    forall i | 0 <= i < |r| ensures Queue(r, ent)[i].id == r[i] {
      assert r[i] in r;
    }
  }

  function RemoveId(r: seq<nat>, id: nat): seq<nat> {
    if r == [] then []
    else if r[0] == id then RemoveId(r[1..], id)
    else [r[0]] + RemoveId(r[1..], id)
  }

  function InsertAt(r: seq<nat>, k: nat, id: nat): seq<nat>
    requires k <= |r|
  {
    r[..k] + [id] + r[k..]
  }

  // The position rt_timer_start stops at in a row
  predicate IsPos(r: seq<nat>, ent: map<nat, Entry>, k: nat, due: nat)
    requires forall x :: x in r ==> x in ent
  {
    && k <= |r|
    && (forall i :: 0 <= i < k ==> ent[r[i]].due <= due)
    && (forall i :: k <= i < |r| ==> ent[r[i]].due > due)
  }

  lemma {:induction false} RemoveIdRow(r: seq<nat>, id: nat, ent: map<nat, Entry>)
    requires Row(r, ent)
    ensures Row(RemoveId(r, id), ent)
    ensures forall x :: x in RemoveId(r, id) <==> x in r && x != id
    ensures Queue(RemoveId(r, id), ent) == Without(Queue(r, ent), id)
  {
    if r != [] {
      RowTail(r, ent);
      RemoveIdRow(r[1..], id, ent);
      if r[0] != id {
        RowCons(r[0], RemoveId(r[1..], id), ent);
      }
    }
  }

  lemma RowTail(r: seq<nat>, ent: map<nat, Entry>)
    requires Row(r, ent) && r != []
    ensures Row(r[1..], ent) && r[0] in ent && ent[r[0]].id == r[0]
    ensures forall x :: x in r <==> x == r[0] || x in r[1..]
    ensures forall x :: x in r[1..] ==> Before(ent[r[0]], ent[x])
    ensures Queue(r, ent) == [ent[r[0]]] + Queue(r[1..], ent)
  {
  }

  lemma RowCons(x: nat, r: seq<nat>, ent: map<nat, Entry>)
    requires Row(r, ent) && x in ent && ent[x].id == x
    requires forall y :: y in r ==> Before(ent[x], ent[y])
    ensures Row([x] + r, ent)
    ensures Queue([x] + r, ent) == [ent[x]] + Queue(r, ent)
  {
  }

  lemma InsertAtElems(r: seq<nat>, k: nat, id: nat)
    requires k <= |r|
    ensures forall x :: x in InsertAt(r, k, id) <==> x in r || x == id
  {
    assert r == r[..k] + r[k..];
  }

  lemma InsertRow(r: seq<nat>, k: nat, e: Entry, ent: map<nat, Entry>)
    requires Row(r, ent) && IsPos(r, ent, k, e.due)
    requires e.id !in ent && forall x :: x in ent ==> ent[x].order < e.order
    ensures Row(InsertAt(r, k, e.id), ent[e.id := e])
  {
    var r', ent' := InsertAt(r, k, e.id), ent[e.id := e];
    InsertAtElems(r, k, e.id);
    forall i | 0 <= i < |r|
      ensures r[i] in ent && ent'[r[i]] == ent[r[i]] && ent[r[i]].order < e.order
    {
      assert r[i] in r;
    }
    forall i, j | 0 <= i < j < |r'| ensures Before(ent'[r'[i]], ent'[r'[j]]) {
      if j < k {
        assert r'[i] == r[i] && r'[j] == r[j];
      } else if j == k {
        assert r'[i] == r[i] && r'[j] == e.id;
      } else if i < k {
        assert r'[i] == r[i] && r'[j] == r[j - 1];
      } else if i == k {
        assert r'[i] == e.id && r'[j] == r[j - 1];
      } else {
        assert r'[i] == r[i - 1] && r'[j] == r[j - 1];
      }
    }
    assert forall x :: x in r' ==> x in ent' && ent'[x].id == x;
  }

  lemma InsertQueue(r: seq<nat>, k: nat, e: Entry, ent: map<nat, Entry>)
    requires Row(r, ent) && IsPos(r, ent, k, e.due) && e.id !in ent
    requires forall x :: x in InsertAt(r, k, e.id) ==> x in ent[e.id := e]
    ensures Queue(InsertAt(r, k, e.id), ent[e.id := e]) == StableInsert(Queue(r, ent), e)
  {
    var q := Queue(r, ent);
    StableInsertAt(q, e, k);
    var q' := Queue(InsertAt(r, k, e.id), ent[e.id := e]);
    forall i | 0 <= i < |q'| ensures q'[i] == (q[..k] + [e] + q[k..])[i] {
      assert i < k ==> r[i] in r;
      assert i > k ==> r[i - 1] in r;
    }
    assert q' == q[..k] + [e] + q[k..];
  }

  // All timers left of position k are due no later than `due`
  predicate Passed(r: seq<nat>, ent: map<nat, Entry>, k: nat, due: nat)
    requires forall x :: x in r ==> x in ent
  {
    k <= |r| && forall i :: 0 <= i < k ==> ent[r[i]].due <= due
  }

  // ---- all rows ----

  predicate Within(a: seq<nat>, b: seq<nat>) {
    forall x :: x in a ==> x in b
  }

  predicate Rows(rows: seq<seq<nat>>, ent: map<nat, Entry>) {
    && |rows| > 0
    && (forall l :: 0 <= l < |rows| ==> Row(rows[l], ent))
    && (forall l :: 0 < l < |rows| ==> Within(rows[l - 1], rows[l]))
    && (forall x :: x in ent ==> x in rows[|rows| - 1])
  }

  predicate Subsequence(a: seq<nat>, b: seq<nat>) {
    if a == [] then true
    else if b == [] then false
    else if a[0] == b[0] then Subsequence(a[1..], b[1..])
    else Subsequence(a, b[1..])
  }

  lemma {:induction false} SortedSubset(a: seq<nat>, b: seq<nat>, ent: map<nat, Entry>)
    requires Row(a, ent) && Row(b, ent)
    requires forall x :: x in a ==> x in b
    ensures Subsequence(a, b)
  {
    if a != [] {
      assert a[0] in b;
      if a[0] == b[0] {
        forall x | x in a[1..] ensures x in b[1..] {
          assert x in a && x != b[0];
        }
        SortedSubset(a[1..], b[1..], ent);
      } else {
        forall x | x in a ensures x in b[1..] {
          assert x == a[0] || Before(ent[a[0]], ent[x]);
          assert Before(ent[b[0]], ent[a[0]]);
        }
        SortedSubset(a, b[1..], ent);
      }
    }
  }

  /** The skip-list shape: every row is a subsequence of the row below it. */
  lemma RowsNest(rows: seq<seq<nat>>, ent: map<nat, Entry>, l: nat)
    requires Rows(rows, ent) && l < |rows| - 1
    ensures Subsequence(rows[l], rows[l + 1])
  {
    SortedSubset(rows[l], rows[l + 1], ent);
  }

  lemma RemoveRows(rows: seq<seq<nat>>, rows': seq<seq<nat>>, id: nat, ent: map<nat, Entry>)
    requires Rows(rows, ent) && |rows'| == |rows|
    requires forall l :: 0 <= l < |rows| ==> rows'[l] == RemoveId(rows[l], id)
    ensures Rows(rows', ent - {id})
    ensures Queue(rows'[|rows| - 1], ent - {id}) == Without(Queue(rows[|rows| - 1], ent), id)
  {
    forall l | 0 <= l < |rows|
      ensures Row(rows'[l], ent - {id})
      ensures forall x :: x in rows'[l] <==> x in rows[l] && x != id
    {
      RemoveIdRow(rows[l], id, ent);
    }
    RemoveIdRow(rows[|rows| - 1], id, ent);
  }

  // `rows'` has the new timer in the rows from `low` down, at the positions found
  predicate Inserted(rows: seq<seq<nat>>, rows': seq<seq<nat>>, head: seq<nat>, low: nat, id: nat) {
    && |rows'| == |rows| == |head|
    && (forall l :: 0 <= l < |rows| ==> head[l] <= |rows[l]|)
    && (forall l :: 0 <= l < |rows| ==>
         rows'[l] == if l >= low then InsertAt(rows[l], head[l], id) else rows[l])
  }

  // What rt_timer_start knows when it starts to link: a fresh timer and its place in every row
  predicate Linkable(rows: seq<seq<nat>>, head: seq<nat>, e: Entry, ent: map<nat, Entry>) {
    && Rows(rows, ent) && |head| == |rows|
    && (forall l :: 0 <= l < |rows| ==> IsPos(rows[l], ent, head[l], e.due))
    && e.id !in ent && (forall x :: x in ent ==> ent[x].order < e.order)
  }

  lemma InsertOneRow(rows: seq<seq<nat>>, rows': seq<seq<nat>>, head: seq<nat>, low: nat,
                     e: Entry, ent: map<nat, Entry>, l: nat)
    requires Linkable(rows, head, e, ent)
    requires Inserted(rows, rows', head, low, e.id) && l < |rows|
    ensures Row(rows'[l], ent[e.id := e])
    ensures forall x :: x in rows'[l] <==> x in rows[l] || (l >= low && x == e.id)
  {
    if l >= low {
      InsertRow(rows[l], head[l], e, ent);
      InsertAtElems(rows[l], head[l], e.id);
    } else {
      RowGrows(rows[l], e, ent);
    }
  }

  lemma InsertRows(rows: seq<seq<nat>>, rows': seq<seq<nat>>, head: seq<nat>, low: nat,
                   e: Entry, ent: map<nat, Entry>)
    requires Linkable(rows, head, e, ent) && low < |rows|
    requires Inserted(rows, rows', head, low, e.id)
    ensures Rows(rows', ent[e.id := e])
  {
    hide Row, IsPos;
    var ent', last := ent[e.id := e], |rows| - 1;
    forall l | 0 <= l < |rows| ensures Row(rows'[l], ent') {
      InsertOneRow(rows, rows', head, low, e, ent, l);
    }
    forall l | 0 < l < |rows| ensures Within(rows'[l - 1], rows'[l]) {
      InsertOneRow(rows, rows', head, low, e, ent, l - 1);
      InsertOneRow(rows, rows', head, low, e, ent, l);
      assert Within(rows[l - 1], rows[l]);
    }
    InsertOneRow(rows, rows', head, low, e, ent, last);
  }

  lemma InsertBottom(rows: seq<seq<nat>>, rows': seq<seq<nat>>, head: seq<nat>, low: nat,
                     e: Entry, ent: map<nat, Entry>)
    requires Linkable(rows, head, e, ent) && low < |rows|
    requires Inserted(rows, rows', head, low, e.id)
    ensures Row(rows'[|rows| - 1], ent[e.id := e])
    ensures Queue(rows'[|rows| - 1], ent[e.id := e])
         == StableInsert(Queue(rows[|rows| - 1], ent), e)
  {
    var last := |rows| - 1;
    InsertOneRow(rows, rows', head, low, e, ent, last);
    InsertQueue(rows[last], head[last], e, ent);
  }

  lemma RowGrows(r: seq<nat>, e: Entry, ent: map<nat, Entry>)
    requires Row(r, ent) && e.id !in ent
    ensures Row(r, ent[e.id := e])
  {
    forall i | 0 <= i < |r| ensures r[i] in ent && r[i] != e.id {
      assert r[i] in r;
    }
  }

  function SettingsOf(t: Object): Settings {
    Settings(t.init, t.periodic, t.activated)
  }

  function AllSettings(timers: map<nat, Object>): (m: map<nat, Settings>)
    ensures m.Keys == timers.Keys
  {
    map id | id in timers :: SettingsOf(timers[id])
  }

  lemma UpdateSettings(timers: map<nat, Object>, id: nat, t: Object)
    ensures AllSettings(timers[id := t]) == AllSettings(timers)[id := SettingsOf(t)]
  {
  }

  // Every timer has a legal period, and every linked one a deadline in the current half window
  predicate Pending(ent: map<nat, Entry>, timers: map<nat, Object>, now: nat, starts: nat) {
    && (forall id :: id in timers ==> GoodInit(timers[id].init))
    && (forall id :: id in ent ==>
         && id in timers
         && timers[id].timeoutTick == ent[id].due % TICK_MOD
         && now <= ent[id].due < now + HALF
         && ent[id].order < starts)
  }

  // The rows, the linked timers and their objects stand for the abstract state
  predicate Represents(rows: seq<seq<nat>>, ent: map<nat, Entry>, timers: map<nat, Object>, state: State) {
    && Rows(rows, ent)
    && Pending(ent, timers, state.now, state.starts)
    && state.timers == AllSettings(timers)
    && state.queue == Queue(rows[|rows| - 1], ent)
  }

  // What rt_timer_start writes into the object
  function Armed(t: Object, due: nat): Object {
    t.(timeoutTick := due % TICK_MOD, activated := true)
  }

  lemma InsertRepresents(rows: seq<seq<nat>>, rows': seq<seq<nat>>, head: seq<nat>, low: nat,
                         e: Entry, ent: map<nat, Entry>, timers: map<nat, Object>, state: State)
    requires Represents(rows, ent, timers, state) && low < |rows| == |rows'|
    requires Linkable(rows, head, e, ent) && Inserted(rows, rows', head, low, e.id)
    requires e.id in timers && e.due == state.now + timers[e.id].init && e.order == state.starts
    ensures Represents(rows', ent[e.id := e], timers[e.id := Armed(timers[e.id], e.due)],
                       State(state.now, state.starts + 1,
                             state.timers[e.id := state.timers[e.id].(activated := true)],
                             StableInsert(state.queue, e)))
  {
    hide Pending, Inserted, Linkable;
    InsertRows(rows, rows', head, low, e, ent);
    InsertBottom(rows, rows', head, low, e, ent);
    LinkedPending(e, ent, timers, state.now, state.starts);
    UpdateSettings(timers, e.id, Armed(timers[e.id], e.due));
  }

  lemma RemoveRepresents(rows: seq<seq<nat>>, rows': seq<seq<nat>>, id: nat,
                         ent: map<nat, Entry>, timers: map<nat, Object>, state: State)
    requires Represents(rows, ent, timers, state) && |rows'| == |rows|
    requires forall l :: 0 <= l < |rows| ==> rows'[l] == RemoveId(rows[l], id)
    ensures Represents(rows', ent - {id}, timers, state.(queue := Without(state.queue, id)))
  {
    RemoveRows(rows, rows', id, ent);
  }

  lemma LinkedPending(e: Entry, ent: map<nat, Entry>, timers: map<nat, Object>, now: nat, starts: nat)
    requires Pending(ent, timers, now, starts)
    requires e.id in timers && e.due == now + timers[e.id].init && e.order == starts
    ensures Pending(ent[e.id := e],
                    timers[e.id := Armed(timers[e.id], e.due)],
                    now, starts + 1)
  {
  }

  /** The restart inside rt_timer_check clears the flag first; rt_timer_start sets it again. */
  lemma RestartOp(s: State, id: nat)
    requires id in s.timers
    ensures StartOp(s.(timers := s.timers[id := s.timers[id].(activated := false)]), id) == StartOp(s, id)
  {
    var t := s.timers[id];
    assert s.timers[id := t.(activated := false)][id := t.(activated := true)]
        == s.timers[id := t.(activated := true)];
  }

  class TimerSystem {
    const levels: nat
    const script: Script
    const ids: set<nat>
    var tick: nat                   // rt_tick, a 32-bit counter
    var now: nat                    // the world's clock: only callbacks look at it
    var timers: map<nat, Object>
    var rows: seq<seq<nat>>         // rt_timer_list[], row levels-1 holds every timer
    var randomNr: bv32
    ghost var ent: map<nat, Entry>  // the linked timers
    ghost var state: State          // the abstract timer service

    ghost predicate Valid()
      reads this
    {
      && |rows| == levels > 0
      && timers.Keys == ids
      && tick == now % TICK_MOD
      && ScriptOk(script, ids)
      && Represents(rows, ent, timers, state)
      && state.now == now
    }

    lemma StateInv()
      requires Valid()
      ensures Inv(state) && state.timers.Keys == ids
      ensures forall id :: id in ent ==> ent[id] in state.queue
    {
      QueueMembers(rows[levels - 1], ent);
    }

    constructor (levels: nat, script: Script, timers: map<nat, Object>, tick: nat)
      requires levels > 0 && tick < TICK_MOD
      requires ScriptOk(script, timers.Keys)
      requires forall id :: id in timers ==> GoodInit(timers[id].init)
      ensures Valid() && state == State(tick, 0, AllSettings(timers), [])
      ensures this.tick == tick && this.timers == timers && this.levels == levels
    {
      this.levels := levels;
      this.script := script;
      this.ids := timers.Keys;
      this.timers := timers;
      this.tick := tick;
      rows := seq(levels, _ => []);
      randomNr := 0;
      now := tick;
      ent := map[];
      state := State(tick, 0, AllSettings(timers), []);
    }

    // rt_list_remove on every row node of one timer
    method Unlink(id: nat)
      requires |rows| == levels
      modifies `rows
      ensures |rows| == levels
      ensures forall l :: 0 <= l < levels ==> rows[l] == RemoveId(old(rows)[l], id)
    {
      var i := 0;
      while i < levels
        invariant 0 <= i <= levels == |rows|
        invariant forall l :: 0 <= l < i ==> rows[l] == RemoveId(old(rows)[l], id)
        invariant forall l :: i <= l < levels ==> rows[l] == old(rows)[l]
      {
        rows := rows[i := RemoveId(rows[i], id)];
        i := i + 1;
      }
    }

    // _rt_timer_remove
    method Remove(id: nat)
      requires Valid() && id in ids
      modifies `rows, `ent, `state
      ensures Valid() && id !in ent
      ensures state == old(state).(queue := Without(old(state).queue, id))
    {
      Unlink(id);
      RemoveRepresents(old(rows), rows, id, ent, timers, state);
      ent := ent - {id};
      state := state.(queue := Without(state.queue, id));
    }

    // The inner search loop of rt_timer_start: move right while the next timer is due no later
    method Advance(row: seq<nat>, from: nat, timeoutTick: nat, ghost due: nat) returns (k: nat)
      requires Row(row, ent) && Pending(ent, timers, now, state.starts)
      requires timeoutTick == due % TICK_MOD && now <= due < now + HALF
      requires Passed(row, ent, from, due)
      ensures IsPos(row, ent, k, due)
    {
      k := from;
      while k != |row|
        invariant from <= k <= |row| && Passed(row, ent, k, due)
      {
        var t := timers[row[k]];
        assert row[k] in row;
        TickOrder(now, ent[row[k]].due, due);
        if TickSub(t.timeoutTick, timeoutTick) == 0 {
          k := k + 1;
          continue;
        } else if TickSub(t.timeoutTick, timeoutTick) < HALF {
          assert forall i :: k < i < |row| ==> Before(ent[row[k]], ent[row[i]]);
          break;
        }
        k := k + 1;
      }
    }

    // The search over all rows, each one entered below where the previous one stopped
    method Search(timeoutTick: nat, ghost due: nat) returns (head: seq<nat>)
      requires Rows(rows, ent) && Pending(ent, timers, now, state.starts) && |rows| == levels
      requires timeoutTick == due % TICK_MOD && now <= due < now + HALF
      ensures |head| == levels
      ensures forall l :: 0 <= l < levels ==> IsPos(rows[l], ent, head[l], due)
    {
      head := [];
      var start: nat := 0;
      while |head| < levels
        invariant |head| <= levels
        invariant forall l :: 0 <= l < |head| ==> IsPos(rows[l], ent, head[l], due)
        invariant |head| < levels ==> Passed(rows[|head|], ent, start, due)
      {
        var lvl := |head|;
        var k := Advance(rows[lvl], start, timeoutTick, due);
        head := head + [k];
        if lvl != levels - 1 {
          start := Below(lvl, k, due);
        }
      }
    }

    // row_head[row_lvl + 1] = row_head[row_lvl] + 1: the same node, one row down
    method Below(lvl: nat, k: nat, ghost due: nat) returns (start: nat)
      requires Rows(rows, ent) && lvl + 1 < |rows| && IsPos(rows[lvl], ent, k, due)
      ensures Passed(rows[lvl + 1], ent, start, due)
    {
      if k == 0 {
        return 0;
      }
      var node := rows[lvl][k - 1];
      assert node in rows[lvl] && Within(rows[lvl], rows[lvl + 1]);
      var below := Sequences.IndexOf(rows[lvl + 1], node);
      assert Row(rows[lvl + 1], ent);
      start := below + 1;
    }

    // rt_timer_start
    method StartTimer(id: nat)
      requires Valid() && id in ids
      modifies `rows, `ent, `timers, `randomNr, `state
      ensures Valid() && state == StartOp(old(state), id)
    {
      hide StableInsert, Without;
      Remove(id);
      ghost var due := now + timers[id].init;
      var timeoutTick := (tick + timers[id].init) % TICK_MOD;
      var head := Search(timeoutTick, due);
      Insert(id, head, timeoutTick, due);
    }

    method Insert(id: nat, head: seq<nat>, timeoutTick: nat, ghost due: nat)
      requires Valid() && id in ids
      requires due == now + timers[id].init && timeoutTick == due % TICK_MOD
      requires |head| == levels && Linkable(rows, head, Entry(id, due, state.starts), ent)
      modifies `rows, `ent, `timers, `randomNr, `state
      ensures Valid()
      ensures state == State(now, old(state).starts + 1,
                             old(state).timers[id := old(state).timers[id].(activated := true)],
                             StableInsert(old(state).queue, Entry(id, due, old(state).starts)))
    {
      hide Inserted, Rows, Pending;
      ghost var e := Entry(id, due, state.starts);
      ghost var low := Link(id, head);
      InsertRepresents(old(rows), rows, head, low, e, ent, timers, state);
      ent := ent[id := e];
      timers := timers[id := timers[id].(timeoutTick := timeoutTick, activated := true)];
      state := State(now, state.starts + 1,
                     state.timers[id := state.timers[id].(activated := true)],
                     StableInsert(state.queue, e));
    }

    // The tail of rt_timer_start: link into the last row, then upwards while the counter allows
    method Link(id: nat, head: seq<nat>) returns (ghost low: nat)
      requires |rows| == |head| == levels > 0
      requires forall l :: 0 <= l < levels ==> head[l] <= |rows[l]|
      modifies `rows, `randomNr
      ensures low < levels == |rows| && Inserted(old(rows), rows, head, low, id)
    {
      randomNr := randomNr + 1;
      var tstNr := randomNr;
      var last := levels - 1;
      rows := rows[last := InsertAt(rows[last], head[last], id)];
      var rowLvl := 2;
      low := last;
      while rowLvl <= levels
        invariant 2 <= rowLvl <= levels + 1 && low == levels - rowLvl + 1
        invariant Inserted(old(rows), rows, head, low, id)
      {
        if tstNr & SKIP_LIST_MASK == 0 {
          var l := levels - rowLvl;
          rows := rows[l := InsertAt(rows[l], head[l], id)];
          low := low - 1;
        } else {
          break;
        }
        tstNr := tstNr >> 2;
        rowLvl := rowLvl + 1;
      }
    }

    // A change of flags or period, with no effect on the rows
    method Set(id: nat, t: Object)
      requires Valid() && id in ids && t.timeoutTick == timers[id].timeoutTick && GoodInit(t.init)
      modifies `timers, `state
      ensures Valid() && timers == old(timers)[id := t]
      ensures state == old(state).(timers := old(state).timers[id := SettingsOf(t)])
    {
      UpdateSettings(timers, id, t);
      timers := timers[id := t];
      state := state.(timers := state.timers[id := SettingsOf(t)]);
    }

    // rt_timer_stop
    method StopTimer(id: nat) returns (ok: bool)
      requires Valid() && id in ids
      modifies `rows, `ent, `timers, `state
      ensures Valid() && state == StopOp(old(state), id)
      ensures ok == old(timers[id].activated)
    {
      if !timers[id].activated {
        return false;
      }
      Remove(id);
      Set(id, timers[id].(activated := false));
      return true;
    }

    // The calls a timeout function makes
    method Execute(c: Cmd)
      requires Valid() && CmdOk(c, ids)
      modifies `rows, `ent, `timers, `randomNr, `state
      ensures Valid() && state == Apply(old(state), c)
    {
      match c
      case Start(id) => StartTimer(id);
      case Stop(id) => var _ := StopTimer(id);
      case SetTime(id, init) => Set(id, timers[id].(init := init));
      case SetPeriodic(id, p) => Set(id, timers[id].(periodic := p));
    }

    method Callback(cmds: seq<Cmd>)
      requires Valid() && CmdsOk(cmds, ids)
      modifies `rows, `ent, `timers, `randomNr, `state
      ensures Valid() && old(state).timers.Keys == ids
      ensures state == RunScript(old(state), cmds)
    {
      var i := 0;
      while i < |cmds|
        invariant 0 <= i <= |cmds| && Valid()
        invariant state.timers.Keys == ids
        invariant RunScript(state, cmds[i..]) == RunScript(old(state), cmds)
      {
        assert cmds[i..][0] == cmds[i] && cmds[i..][1..] == cmds[i + 1..];
        Execute(cmds[i]);
        i := i + 1;
      }
    }

    // rt_timer_check, at the current tick
    method CheckTimers() returns (ghost fired: seq<Entry>)
      requires Valid()
      modifies `rows, `ent, `timers, `randomNr, `state
      ensures Valid() && Inv(old(state)) && old(state).timers.Keys == ids
      ensures state == Check(old(state), script).0 && fired == Check(old(state), script).1
    {
      fired := [];
      StateInv();
      while rows[levels - 1] != []
        invariant Valid() && Inv(state) && state.timers.Keys == ids
        invariant Check(old(state), script).0 == Check(state, script).0
        invariant Check(old(state), script).1 == fired + Check(state, script).1
        decreases DueCount(state.queue, state.now)
      {
        var id := rows[levels - 1][0];
        var due := DueNow(id);
        if due {
          CheckUnfolds(state, script);
          Assoc(fired, [state.queue[0]], Check(FireFirst(state, script), script).1);
          fired := fired + [state.queue[0]];
          FireHead(id);
        } else {
          break;
        }
      }
      CheckStops(state, script);
    }

    method DueNow(id: nat) returns (due: bool)
      requires Valid() && rows[levels - 1] != [] && rows[levels - 1][0] == id
      ensures state.queue != [] && state.queue[0].id == id
      ensures due <==> state.queue[0].due <= state.now
    {
      assert id in rows[levels - 1];
      DueTest(now, ent[id].due);
      due := TickSub(tick, timers[id].timeoutTick) < HALF;
    }

    method FireHead(id: nat)
      requires Valid() && Inv(state) && state.timers.Keys == ids
      requires state.queue != [] && state.queue[0].id == id && state.queue[0].due <= state.now
      modifies `rows, `ent, `timers, `randomNr, `state
      ensures Valid() && state == FireFirst(old(state), script)
      ensures Inv(state) && state.timers.Keys == ids
    {
      FireFirstKeeps(state, script);
      WithoutHead(state.queue);
      Remove(id);
      assert state == Popped(old(state));
      Callback(script(id, now));
      if timers[id].periodic && timers[id].activated {
        RestartOp(state, id);
        Set(id, timers[id].(activated := false));
        StartTimer(id);
      } else {
        Set(id, timers[id].(activated := false));
      }
    }

    // rt_tick_increase: one more tick, then one check
    method TickIncrease() returns (ghost fired: seq<Entry>)
      requires Valid() && Settled(state)
      modifies this
      ensures Valid() && old(state).timers.Keys == ids && Settled(state)
      ensures state == TickOp(old(state), script).0 && fired == TickOp(old(state), script).1
    {
      NextTick();
      CheckFiresDue(state, script);
      fired := CheckTimers();
    }

    method NextTick()
      requires Valid() && Settled(state)
      modifies `tick, `now, `state
      ensures Valid() && state == Ticked(old(state))
      ensures Inv(state) && state.timers.Keys == ids
    {
      StateInv();
      tick := (tick + 1) % TICK_MOD;
      now := now + 1;
      state := Ticked(state);
    }
  }

  lemma Assoc(a: seq<Entry>, b: seq<Entry>, c: seq<Entry>)
    ensures a + (b + c) == (a + b) + c
  {
  }

  lemma CheckStops(s: State, script: Script)
    requires Inv(s) && ScriptOk(script, s.timers.Keys)
    requires s.queue == [] || s.queue[0].due > s.now
    ensures Check(s, script).0 == s && Check(s, script).1 == []
  {
  }

  lemma WithoutHead(q: seq<Entry>)
    requires q != [] && Ordered(q)
    ensures Without(q, q[0].id) == q[1..]
  {
    WithoutAbsent(q[1..], q[0].id);
  }

  lemma {:induction false} WithoutAbsent(q: seq<Entry>, id: nat)
    requires forall i :: 0 <= i < |q| ==> q[i].id != id
    ensures Without(q, id) == q
  {
    if q != [] {
      WithoutAbsent(q[1..], id);
    }
  }
}
