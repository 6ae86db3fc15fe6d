/** The timer service seen from outside: an unbounded clock, one queue of pending deadlines
    and the stable sorted insertion that rt-thread/src/timer.c:297-301 asks for.
    Deadlines here are absolute; the wrapping 32-bit ticks live in module Timer. */
module TimerSpec {

  const HALF: nat := 0x7FFF_FFFF  // RT_TICK_MAX / 2

  datatype Settings = Settings(init: nat, periodic: bool, activated: bool)

  // `order` counts calls of rt_timer_start, so it orders timers that share a deadline
  datatype Entry = Entry(id: nat, due: nat, order: nat)

  datatype Cmd =
    | Start(id: nat)
    | Stop(id: nat)
    | SetTime(id: nat, init: nat)
    | SetPeriodic(id: nat, periodic: bool)

  datatype State = State(now: nat, starts: nat, timers: map<nat, Settings>, queue: seq<Entry>)

  // What the timeout function of a timer does when it runs at an absolute tick
  type Script = (nat, nat) -> seq<Cmd>

  datatype Event = Tick | Do(cmd: Cmd)

  datatype Firing = Firing(entry: Entry, at: nat)

  predicate Before(a: Entry, b: Entry) {
    a.due < b.due || (a.due == b.due && a.order < b.order)
  }

  // Sorted by (due, order), and no timer twice
  predicate Ordered(q: seq<Entry>) {
    forall i, j :: 0 <= i < j < |q| ==> Before(q[i], q[j]) && q[i].id != q[j].id
  }

  predicate GoodInit(init: nat) {
    1 <= init < HALF
  }

  predicate Inv(s: State) {
    && Ordered(s.queue)
    && (forall e :: e in s.queue ==>
         e.id in s.timers && s.now <= e.due < s.now + HALF && e.order < s.starts)
    && (forall id :: id in s.timers ==> GoodInit(s.timers[id].init))
  }

  // Nothing is due any more: what holds between two ticks
  predicate Settled(s: State) {
    Inv(s) && forall e :: e in s.queue ==> s.now < e.due
  }

  predicate CmdOk(c: Cmd, ids: set<nat>) {
    c.id in ids && (c.SetTime? ==> GoodInit(c.init))
  }

  predicate CmdsOk(cmds: seq<Cmd>, ids: set<nat>) {
    forall c :: c in cmds ==> CmdOk(c, ids)
  }

  ghost predicate ScriptOk(script: Script, ids: set<nat>) {
    forall id, t :: CmdsOk(script(id, t), ids)
  }

  function Without(q: seq<Entry>, id: nat): seq<Entry> {
    if q == [] then []
    else if q[0].id == id then Without(q[1..], id)
    else [q[0]] + Without(q[1..], id)
  }

  function StableInsert(q: seq<Entry>, e: Entry): seq<Entry> {
    if q == [] || q[0].due > e.due then [e] + q else [q[0]] + StableInsert(q[1..], e)
  }

  function DueCount(q: seq<Entry>, now: nat): nat {
    if q == [] then 0 else (if q[0].due <= now then 1 else 0) + DueCount(q[1..], now)
  }

  function StartOp(s: State, id: nat): State
    requires id in s.timers
  {
    var t := s.timers[id];
    State(s.now, s.starts + 1, s.timers[id := t.(activated := true)],
          StableInsert(Without(s.queue, id), Entry(id, s.now + t.init, s.starts)))
  }

  function StopOp(s: State, id: nat): State
    requires id in s.timers
  {
    if !s.timers[id].activated then s
    else s.(timers := s.timers[id := s.timers[id].(activated := false)],
            queue := Without(s.queue, id))
  }

  function Apply(s: State, c: Cmd): State
    requires CmdOk(c, s.timers.Keys)
  {
    match c
    case Start(id) => StartOp(s, id)
    case Stop(id) => StopOp(s, id)
    case SetTime(id, init) => s.(timers := s.timers[id := s.timers[id].(init := init)])
    case SetPeriodic(id, p) => s.(timers := s.timers[id := s.timers[id].(periodic := p)])
  }

  function RunScript(s: State, cmds: seq<Cmd>): (r: State)
    requires CmdsOk(cmds, s.timers.Keys)
    ensures r.now == s.now && r.timers.Keys == s.timers.Keys
    decreases |cmds|
  {
    if cmds == [] then s
    else
      var s1 := Apply(s, cmds[0]);
      assert s1.timers.Keys == s.timers.Keys;
      RunScript(s1, cmds[1..])
  }

  // Consume the head of the queue, run its callback, and re-arm it if it is periodic
  function FireFirst(s: State, script: Script): (r: State)
    requires s.queue != [] && s.queue[0].id in s.timers
    requires ScriptOk(script, s.timers.Keys)
    ensures r.now == s.now && r.timers.Keys == s.timers.Keys
  {
    var e := s.queue[0];
    assert CmdsOk(script(e.id, s.now), Popped(s).timers.Keys);
    var s2 := RunScript(Popped(s), script(e.id, s.now));
    var t := s2.timers[e.id];
    if t.periodic && t.activated then StartOp(s2, e.id)
    else s2.(timers := s2.timers[e.id := t.(activated := false)])
  }

  ghost function Check(s: State, script: Script): (r: (State, seq<Entry>))
    requires Inv(s) && ScriptOk(script, s.timers.Keys)
    decreases DueCount(s.queue, s.now)
  {
    if s.queue == [] || s.queue[0].due > s.now then (s, [])
    else
      FireFirstKeeps(s, script);
      var rest := Check(FireFirst(s, script), script);
      (rest.0, [s.queue[0]] + rest.1)
  }

  // One more tick on the clock, before the check
  function Ticked(s: State): (r: State)
    requires Settled(s)
    ensures Inv(r)
  {
    s.(now := s.now + 1)
  }

  ghost function TickOp(s: State, script: Script): (State, seq<Entry>)
    requires Settled(s) && ScriptOk(script, s.timers.Keys)
  {
    Check(Ticked(s), script)
  }

  ghost predicate EventsOk(events: seq<Event>, ids: set<nat>) {
    forall ev :: ev in events && ev.Do? ==> CmdOk(ev.cmd, ids)
  }

  function Stamp(log: seq<Entry>, at: nat): seq<Firing> {
    seq(|log|, i requires 0 <= i < |log| => Firing(log[i], at))
  }

  // ---- insertion and removal ----

  /** Stable sorted insertion, stated without recursion: the new entry goes after every entry
      due no later and before every entry due later. */
  lemma {:induction false} StableInsertAt(q: seq<Entry>, e: Entry, k: nat)
    requires k <= |q|
    requires forall i :: 0 <= i < k ==> q[i].due <= e.due
    requires k < |q| ==> q[k].due > e.due
    ensures StableInsert(q, e) == q[..k] + [e] + q[k..]
  {
    if k > 0 {
      StableInsertAt(q[1..], e, k - 1);
      assert q[1..][..k - 1] == q[1..k];
    }
  }

  predicate Ahead(e: Entry, q: seq<Entry>) {
    forall x :: x in q ==> Before(e, x) && e.id != x.id
  }

  lemma OrderedTail(q: seq<Entry>)
    requires Ordered(q) && q != []
    ensures Ordered(q[1..]) && Ahead(q[0], q[1..])
    ensures forall x :: x in q <==> x == q[0] || x in q[1..]
  {
  }

  lemma OrderedCons(e: Entry, q: seq<Entry>)
    requires Ordered(q) && Ahead(e, q)
    ensures Ordered([e] + q)
    ensures forall x :: x in [e] + q <==> x == e || x in q
  {
    var r := [e] + q;
    forall i, j | 0 <= i < j < |r| ensures Before(r[i], r[j]) && r[i].id != r[j].id {
      assert r[j] == q[j - 1] && q[j - 1] in q;
      assert i > 0 ==> r[i] == q[i - 1];
    }
  }

  predicate Newest(e: Entry, q: seq<Entry>) {
    forall x :: x in q ==> x.order < e.order && x.id != e.id
  }

  lemma {:induction false} StableInsertKeeps(q: seq<Entry>, e: Entry)
    requires Ordered(q) && Newest(e, q)
    ensures forall x :: x in StableInsert(q, e) <==> x in q || x == e
    ensures Ordered(StableInsert(q, e))
  {
    if q == [] {
    } else if q[0].due > e.due {
      OrderedTail(q);
      OrderedCons(e, q);
    } else {
      OrderedTail(q);
      StableInsertKeeps(q[1..], e);
      OrderedCons(q[0], StableInsert(q[1..], e));
    }
  }

  lemma {:induction false} WithoutKeeps(q: seq<Entry>, id: nat)
    requires Ordered(q)
    ensures forall x :: x in Without(q, id) <==> x in q && x.id != id
    ensures Ordered(Without(q, id))
  {
    if q != [] {
      OrderedTail(q);
      WithoutKeeps(q[1..], id);
      if q[0].id != id {
        OrderedCons(q[0], Without(q[1..], id));
      }
    }
  }

  lemma {:induction false} DueCountWithout(q: seq<Entry>, id: nat, now: nat)
    ensures DueCount(Without(q, id), now) <= DueCount(q, now)
  {
    if q != [] {
      DueCountWithout(q[1..], id, now);
      assert q[0].id != id ==> Without(q, id)[1..] == Without(q[1..], id);
    }
  }

  lemma {:induction false} DueCountInsert(q: seq<Entry>, e: Entry, now: nat)
    requires e.due > now
    ensures DueCount(StableInsert(q, e), now) == DueCount(q, now)
  {
    if q == [] || q[0].due > e.due {
      assert StableInsert(q, e)[1..] == q;
    } else {
      DueCountInsert(q[1..], e, now);
      assert StableInsert(q, e)[1..] == StableInsert(q[1..], e);
    }
  }

  // ---- what every step keeps ----

  // From s to s' within one tick: what is new in the queue was started later and is not yet due
  predicate Later(s: State, s': State) {
    && s'.now == s.now && s'.starts >= s.starts && s'.timers.Keys == s.timers.Keys
    && DueCount(s'.queue, s.now) <= DueCount(s.queue, s.now)
    && forall e :: e in s'.queue ==> e in s.queue || (e.due > s.now && e.order >= s.starts)
  }

  lemma StartKeeps(s: State, id: nat)
    requires Inv(s) && id in s.timers
    ensures Inv(StartOp(s, id)) && Later(s, StartOp(s, id))
    ensures forall e :: e in s.queue && e.id != id ==> e in StartOp(s, id).queue
  {
    var q := Without(s.queue, id);
    WithoutKeeps(s.queue, id);
    DueCountWithout(s.queue, id, s.now);
    var e := Entry(id, s.now + s.timers[id].init, s.starts);
    assert Newest(e, q);
    StableInsertKeeps(q, e);
    DueCountInsert(q, e, s.now);
  }

  lemma StopKeeps(s: State, id: nat)
    requires Inv(s) && id in s.timers
    ensures Inv(StopOp(s, id)) && Later(s, StopOp(s, id))
    ensures forall e :: e in s.queue && e.id != id ==> e in StopOp(s, id).queue
  {
    WithoutKeeps(s.queue, id);
    DueCountWithout(s.queue, id, s.now);
  }

  lemma ApplyKeeps(s: State, c: Cmd)
    requires Inv(s) && CmdOk(c, s.timers.Keys)
    ensures Inv(Apply(s, c)) && Later(s, Apply(s, c))
    ensures forall e :: e in s.queue && e.id != c.id ==> e in Apply(s, c).queue
  {
    match c
    case Start(id) => StartKeeps(s, id);
    case Stop(id) => StopKeeps(s, id);
    case SetTime(_, _) =>
    case SetPeriodic(_, _) =>
  }

  lemma {:induction false} RunScriptKeeps(s: State, cmds: seq<Cmd>)
    requires Inv(s) && CmdsOk(cmds, s.timers.Keys)
    ensures Inv(RunScript(s, cmds)) && Later(s, RunScript(s, cmds))
    decreases |cmds|
  {
    if cmds != [] {
      ApplyKeeps(s, cmds[0]);
      RunScriptKeeps(Apply(s, cmds[0]), cmds[1..]);
    }
  }

  // `cmds` leaves timer `id` alone
  predicate CmdsSpare(cmds: seq<Cmd>, id: nat) {
    forall c :: c in cmds ==> c.id != id
  }

  lemma {:induction false} RunScriptSpares(s: State, cmds: seq<Cmd>, e: Entry)
    requires Inv(s) && CmdsOk(cmds, s.timers.Keys)
    requires e in s.queue && CmdsSpare(cmds, e.id)
    ensures e in RunScript(s, cmds).queue
    decreases |cmds|
  {
    if cmds != [] {
      ApplyKeeps(s, cmds[0]);
      RunScriptSpares(Apply(s, cmds[0]), cmds[1..], e);
    }
  }

  // The state in which the callback of the first timer runs
  function Popped(s: State): State
    requires s.queue != []
  {
    s.(queue := s.queue[1..])
  }

  lemma PoppedKeeps(s: State)
    requires Inv(s) && s.queue != [] && s.queue[0].due <= s.now
    ensures s.queue[0].due == s.now && s.queue[0].id in s.timers
    ensures Inv(Popped(s)) && Ahead(s.queue[0], s.queue[1..])
    ensures DueCount(Popped(s).queue, s.now) < DueCount(s.queue, s.now)
  {
    OrderedTail(s.queue);
  }

  lemma FireFirstKeeps(s: State, script: Script)
    requires Inv(s) && ScriptOk(script, s.timers.Keys)
    requires s.queue != [] && s.queue[0].due <= s.now
    ensures s.queue[0].due == s.now && Ahead(s.queue[0], s.queue[1..])
    ensures Inv(FireFirst(s, script)) && Later(Popped(s), FireFirst(s, script))
    ensures DueCount(FireFirst(s, script).queue, s.now) < DueCount(s.queue, s.now)
  {
    PoppedKeeps(s);
    var s1 := Popped(s);
    var id := s.queue[0].id;
    RunScriptKeeps(s1, script(id, s.now));
    var s2 := RunScript(s1, script(id, s.now));
    if s2.timers[id].periodic && s2.timers[id].activated {
      ApplyKeeps(s2, Start(id));
      assert Later(s2, FireFirst(s, script));
    } else {
      assert FireFirst(s, script).queue == s2.queue;
    }
  }

  lemma FireFirstSpares(s: State, script: Script, e: Entry)
    requires Inv(s) && ScriptOk(script, s.timers.Keys)
    requires s.queue != [] && s.queue[0].due <= s.now
    requires e in s.queue[1..] && Spares(script, e.id)
    ensures e in FireFirst(s, script).queue
  {
    PoppedKeeps(s);
    var s1 := Popped(s);
    var id := s.queue[0].id;
    RunScriptKeeps(s1, script(id, s.now));
    assert CmdsSpare(script(id, s.now), e.id);
    RunScriptSpares(s1, script(id, s.now), e);
    var s2 := RunScript(s1, script(id, s.now));
    if s2.timers[id].periodic && s2.timers[id].activated {
      ApplyKeeps(s2, Start(id));
    }
  }

  // No callback issues a command on timer `id`
  ghost predicate Spares(script: Script, id: nat) {
    forall i, t :: CmdsSpare(script(i, t), id)
  }

  // ---- one pass of rt_timer_check ----

  /** One pass fires exactly entries whose deadline is the current tick, in queue order (that
      is, in the order the timers were started), and leaves nothing due behind. */
  lemma {:induction false} CheckFiresDue(s: State, script: Script)
    requires Inv(s) && ScriptOk(script, s.timers.Keys)
    ensures Settled(Check(s, script).0)
    ensures Check(s, script).0.now == s.now && Check(s, script).0.timers.Keys == s.timers.Keys
    ensures forall e :: e in Check(s, script).1 ==> e in s.queue && e.due == s.now
    ensures Ordered(Check(s, script).1)
    decreases DueCount(s.queue, s.now)
  {
    if s.queue != [] && s.queue[0].due <= s.now {
      CheckUnfolds(s, script);
      FireFirstKeeps(s, script);
      var s1 := FireFirst(s, script);
      CheckFiresDue(s1, script);
      var log := Check(s1, script).1;
      assert forall e :: e in log ==> e in s.queue[1..] && e.due == s.now;
      assert Ahead(s.queue[0], log);
      OrderedCons(s.queue[0], log);
    } else if s.queue != [] {
      OrderedTail(s.queue);
    }
  }

  lemma CheckUnfolds(s: State, script: Script)
    requires Inv(s) && ScriptOk(script, s.timers.Keys)
    requires s.queue != [] && s.queue[0].due <= s.now
    ensures Inv(FireFirst(s, script))
    ensures DueCount(FireFirst(s, script).queue, s.now) < DueCount(s.queue, s.now)
    ensures Check(s, script).0 == Check(FireFirst(s, script), script).0
    ensures Check(s, script).1 == [s.queue[0]] + Check(FireFirst(s, script), script).1
  {
    FireFirstKeeps(s, script);
  }

  /** An entry that no callback touches is fired by the pass at its deadline, and survives
      every earlier pass. */
  lemma {:induction false} CheckKeepsUntouched(s: State, script: Script, e: Entry)
    requires Inv(s) && ScriptOk(script, s.timers.Keys) && e in s.queue
    requires Spares(script, e.id)
    ensures e.due == s.now ==> e in Check(s, script).1
    ensures e.due > s.now ==> e in Check(s, script).0.queue
    decreases DueCount(s.queue, s.now)
  {
    OrderedTail(s.queue);
    if s.queue[0].due <= s.now {
      CheckUnfolds(s, script);
      if e != s.queue[0] {
        FireFirstSpares(s, script, e);
        CheckKeepsUntouched(FireFirst(s, script), script, e);
      }
    }
  }

  // ---- whole runs ----

  ghost function Run(s: State, events: seq<Event>, script: Script): (r: (State, seq<Firing>))
    requires Settled(s) && ScriptOk(script, s.timers.Keys) && EventsOk(events, s.timers.Keys)
    decreases |events|
  {
    if events == [] then (s, [])
    else
      StepKeeps(s, events[0], script);
      var step := Step(s, events[0], script);
      assert EventsOk(events[1..], step.0.timers.Keys);
      var rest := Run(step.0, events[1..], script);
      (rest.0, step.1 + rest.1)
  }

  ghost function Step(s: State, ev: Event, script: Script): (State, seq<Firing>)
    requires Settled(s) && ScriptOk(script, s.timers.Keys)
    requires ev.Do? ==> CmdOk(ev.cmd, s.timers.Keys)
  {
    match ev
    case Tick => var r := TickOp(s, script); (r.0, Stamp(r.1, s.now + 1))
    case Do(cmd) => (Apply(s, cmd), [])
  }

  lemma StepKeeps(s: State, ev: Event, script: Script)
    requires Settled(s) && ScriptOk(script, s.timers.Keys)
    requires ev.Do? ==> CmdOk(ev.cmd, s.timers.Keys)
    ensures Settled(Step(s, ev, script).0)
    ensures Step(s, ev, script).0.timers.Keys == s.timers.Keys
    ensures Step(s, ev, script).0.now == s.now + if ev.Tick? then 1 else 0
  {
    match ev
    case Tick => CheckFiresDue(Ticked(s), script);
    case Do(cmd) =>
      ApplyKeeps(s, cmd);
      assert Later(s, Apply(s, cmd));
  }

  predicate LogSorted(log: seq<Firing>) {
    forall i, j :: 0 <= i < j < |log| ==> Before(log[i].entry, log[j].entry)
  }

  // Every firing of the log is on time, inside (after, until]
  predicate OnTime(log: seq<Firing>, after: nat, until: nat) {
    forall f :: f in log ==> f.at == f.entry.due && after < f.at <= until
  }

  lemma LogConcat(a: seq<Firing>, b: seq<Firing>, t0: nat, t1: nat, t2: nat)
    requires OnTime(a, t0, t1) && OnTime(b, t1, t2) && t0 <= t1 <= t2
    requires LogSorted(a) && LogSorted(b)
    ensures OnTime(a + b, t0, t2) && LogSorted(a + b)
  {
    var c := a + b;
    forall i, j | 0 <= i < j < |c| ensures Before(c[i].entry, c[j].entry) {
      if i < |a| <= j {
        assert a[i] in a && b[j - |a|] in b;
      }
    }
  }

  lemma StampOnTime(log: seq<Entry>, at: nat)
    requires at > 0 && Ordered(log) && forall e :: e in log ==> e.due == at
    ensures OnTime(Stamp(log, at), at - 1, at) && LogSorted(Stamp(log, at))
  {
    forall i | 0 <= i < |log| ensures log[i].due == at {
      assert log[i] in log;
    }
  }

  lemma StepOnTime(s: State, ev: Event, script: Script)
    requires Settled(s) && ScriptOk(script, s.timers.Keys)
    requires ev.Do? ==> CmdOk(ev.cmd, s.timers.Keys)
    ensures OnTime(Step(s, ev, script).1, s.now, Step(s, ev, script).0.now)
    ensures LogSorted(Step(s, ev, script).1)
  {
    StepKeeps(s, ev, script);
    if ev.Tick? {
      var s1 := Ticked(s);
      CheckFiresDue(s1, script);
      StampOnTime(Check(s1, script).1, s1.now);
    }
  }

  /** Never early, never late: in every run every callback runs exactly at its deadline, the
      whole log is in (deadline, start) order, and at the end nothing overdue is pending. */
  lemma {:induction false} RunFiresOnTime(s: State, events: seq<Event>, script: Script)
    requires Settled(s) && ScriptOk(script, s.timers.Keys) && EventsOk(events, s.timers.Keys)
    ensures Run(s, events, script).0.now >= s.now
    ensures OnTime(Run(s, events, script).1, s.now, Run(s, events, script).0.now)
    ensures LogSorted(Run(s, events, script).1)
    ensures Settled(Run(s, events, script).0)
    decreases |events|
  {
    if events != [] {
      RunUnfolds(s, events, script);
      var step := Step(s, events[0], script);
      RunFiresOnTime(step.0, events[1..], script);
      StepOnTime(s, events[0], script);
      var rest := Run(step.0, events[1..], script);
      LogConcat(step.1, rest.1, s.now, step.0.now, rest.0.now);
    }
  }

  lemma RunUnfolds(s: State, events: seq<Event>, script: Script)
    requires Settled(s) && ScriptOk(script, s.timers.Keys) && EventsOk(events, s.timers.Keys)
    requires events != []
    ensures events[0].Do? ==> CmdOk(events[0].cmd, s.timers.Keys)
    ensures var step := Step(s, events[0], script);
            && Settled(step.0) && step.0.timers.Keys == s.timers.Keys
            && step.0.now == s.now + (if events[0].Tick? then 1 else 0)
            && EventsOk(events[1..], s.timers.Keys)
            && Run(s, events, script).0 == Run(step.0, events[1..], script).0
            && Run(s, events, script).1 == step.1 + Run(step.0, events[1..], script).1
  {
    assert events[0] in events;
    StepKeeps(s, events[0], script);
  }

  function Ticks(events: seq<Event>): nat {
    if events == [] then 0 else (if events[0].Tick? then 1 else 0) + Ticks(events[1..])
  }

  lemma StampIn(log: seq<Entry>, at: nat, e: Entry)
    requires e in log
    ensures Firing(e, at) in Stamp(log, at)
  {
    var k :| 0 <= k < |log| && log[k] == e;
    assert Stamp(log, at)[k] == Firing(e, at);
  }

  lemma TickKeepsUntouched(s: State, script: Script, e: Entry)
    requires Settled(s) && ScriptOk(script, s.timers.Keys) && e in s.queue && Spares(script, e.id)
    ensures e.due == s.now + 1 ==> Firing(e, e.due) in Step(s, Tick, script).1
    ensures e.due != s.now + 1 ==> e in Step(s, Tick, script).0.queue
  {
    var s1 := Ticked(s);
    CheckKeepsUntouched(s1, script, e);
    if e.due == s1.now {
      StampIn(Check(s1, script).1, s1.now, e);
    }
  }

  /** Never missed: a pending timer that nobody stops or restarts fires at its deadline as soon
      as the run has that many ticks, and stays pending until then. */
  lemma {:induction false} UntouchedTimerFires(s: State, events: seq<Event>, script: Script, e: Entry)
    requires Settled(s) && ScriptOk(script, s.timers.Keys) && EventsOk(events, s.timers.Keys)
    requires e in s.queue && Spares(script, e.id)
    requires forall ev :: ev in events && ev.Do? ==> ev.cmd.id != e.id
    ensures s.now + Ticks(events) >= e.due ==> Firing(e, e.due) in Run(s, events, script).1
    ensures s.now + Ticks(events) < e.due ==> e in Run(s, events, script).0.queue
    decreases |events|
  {
    if events != [] {
      assert events[0] in events;
      RunUnfolds(s, events, script);
      if events[0].Tick? {
        TickKeepsUntouched(s, script, e);
      } else {
        ApplyKeeps(s, events[0].cmd);
      }
      if !(events[0].Tick? && e.due == s.now + 1) {
        UntouchedTimerFires(Step(s, events[0], script).0, events[1..], script, e);
      }
    }
  }

  // ---- periodic timers ----

  lemma {:induction false} RunScriptSettings(s: State, cmds: seq<Cmd>, id: nat)
    requires CmdsOk(cmds, s.timers.Keys) && id in s.timers && CmdsSpare(cmds, id)
    ensures RunScript(s, cmds).timers[id] == s.timers[id]
    decreases |cmds|
  {
    if cmds != [] {
      assert Apply(s, cmds[0]).timers.Keys == s.timers.Keys;
      RunScriptSettings(Apply(s, cmds[0]), cmds[1..], id);
    }
  }

  // The queue holds a deadline of timer `id` at tick `due`
  predicate PendingAt(s: State, id: nat, due: nat) {
    exists e :: e in s.queue && e.id == id && e.due == due
  }

  lemma FireFirstRearms(s: State, script: Script)
    requires Inv(s) && ScriptOk(script, s.timers.Keys)
    requires s.queue != [] && s.queue[0].due <= s.now
    requires var id := s.queue[0].id; Spares(script, id) && s.timers[id].periodic && s.timers[id].activated
    ensures PendingAt(FireFirst(s, script), s.queue[0].id, s.now + s.timers[s.queue[0].id].init)
  {
    PoppedKeeps(s);
    var id := s.queue[0].id;
    assert CmdsSpare(script(id, s.now), id);
    RunScriptKeeps(Popped(s), script(id, s.now));
    RunScriptSettings(Popped(s), script(id, s.now), id);
    var s2 := RunScript(Popped(s), script(id, s.now));
    var e := Entry(id, s2.now + s2.timers[id].init, s2.starts);
    WithoutKeeps(s2.queue, id);
    StableInsertKeeps(Without(s2.queue, id), e);
    assert e in FireFirst(s, script).queue;
  }

  lemma FireFirstSettings(s: State, script: Script, id: nat)
    requires Inv(s) && ScriptOk(script, s.timers.Keys)
    requires s.queue != [] && s.queue[0].due <= s.now
    requires id in s.timers && Spares(script, id) && s.queue[0].id != id
    ensures FireFirst(s, script).timers[id] == s.timers[id]
  {
    PoppedKeeps(s);
    assert CmdsSpare(script(s.queue[0].id, s.now), id);
    RunScriptSettings(Popped(s), script(s.queue[0].id, s.now), id);
  }

  /** A periodic timer that fires is pending again, one period after the deadline it met. */
  lemma {:induction false} PeriodicTimerRearms(s: State, script: Script, e: Entry)
    requires Inv(s) && ScriptOk(script, s.timers.Keys) && e in s.queue && e.due == s.now
    requires Spares(script, e.id) && s.timers[e.id].periodic && s.timers[e.id].activated
    ensures PendingAt(Check(s, script).0, e.id, e.due + s.timers[e.id].init)
    decreases DueCount(s.queue, s.now)
  {
    OrderedTail(s.queue);
    CheckUnfolds(s, script);
    var s1 := FireFirst(s, script);
    if e == s.queue[0] {
      FireFirstRearms(s, script);
      var e' :| e' in s1.queue && e'.id == e.id && e'.due == e.due + s.timers[e.id].init;
      CheckKeepsUntouched(s1, script, e');
    } else {
      FireFirstSpares(s, script, e);
      FireFirstSettings(s, script, e.id);
      PeriodicTimerRearms(s1, script, e);
    }
  }

  // ---- the ACTIVATED flag ----

  predicate Queued(s: State, id: nat) {
    exists e :: e in s.queue && e.id == id
  }

  // The flag of every timer but `id` says whether it is pending
  predicate FlagsAgreeBut(s: State, id: nat) {
    forall x :: x in s.timers && x != id ==> (s.timers[x].activated <==> Queued(s, x))
  }

  predicate FlagAgrees(s: State, id: nat)
    requires id in s.timers
  {
    s.timers[id].activated <==> Queued(s, id)
  }

  predicate FlagsAgree(s: State) {
    forall x :: x in s.timers ==> FlagAgrees(s, x)
  }

  // The last start or stop of timer `id` in `cmds` is a start
  predicate LastIsStart(cmds: seq<Cmd>, id: nat) {
    if cmds == [] then false
    else
      var c := cmds[|cmds| - 1];
      if c.id == id && (c.Start? || c.Stop?) then c.Start? else LastIsStart(cmds[..|cmds| - 1], id)
  }

  lemma QueuedApply(s: State, c: Cmd, x: nat)
    requires Inv(s) && CmdOk(c, s.timers.Keys)
    ensures x != c.id ==> (Queued(Apply(s, c), x) <==> Queued(s, x))
    ensures c.Start? ==> Queued(Apply(s, c), c.id)
    ensures c.Stop? && s.timers[c.id].activated ==> !Queued(Apply(s, c), c.id)
    ensures (c.SetTime? || c.SetPeriodic?) ==> (Queued(Apply(s, c), x) <==> Queued(s, x))
  {
    var s' := Apply(s, c);
    if c.Start? || c.Stop? {
      WithoutKeeps(s.queue, c.id);
    }
    if c.Start? {
      var e := Entry(c.id, s.now + s.timers[c.id].init, s.starts);
      StableInsertKeeps(Without(s.queue, c.id), e);
      assert e in s'.queue;
    }
    if x != c.id {
      if Queued(s, x) {
        var e :| e in s.queue && e.id == x;
        assert e in s'.queue;
      }
      if Queued(s', x) {
        var e :| e in s'.queue && e.id == x;
        assert e in s.queue;
      }
    }
  }

  lemma {:induction false} RunScriptFlags(s: State, cmds: seq<Cmd>, id: nat)
    requires Inv(s) && CmdsOk(cmds, s.timers.Keys) && id in s.timers
    requires FlagsAgreeBut(s, id) && !Queued(s, id) && s.timers[id].activated
    ensures var r := RunScript(s, cmds);
            && FlagsAgreeBut(r, id)
            && (Queued(r, id) <==> LastIsStart(cmds, id))
            && (Queued(r, id) ==> r.timers[id].activated)
    decreases |cmds|
  {
    if cmds != [] {
      var n := |cmds| - 1;
      assert cmds == cmds[..n] + [cmds[n]];
      RunScriptSnoc(s, cmds[..n], cmds[n]);
      RunScriptFlags(s, cmds[..n], id);
      RunScriptKeeps(s, cmds[..n]);
      var r0 := RunScript(s, cmds[..n]);
      assert cmds[n] in cmds;
      FlagsApply(r0, cmds[n], id);
    }
  }

  lemma FlagsApply(s: State, c: Cmd, id: nat)
    requires Inv(s) && CmdOk(c, s.timers.Keys) && id in s.timers
    requires FlagsAgreeBut(s, id) && (Queued(s, id) ==> s.timers[id].activated)
    ensures FlagsAgreeBut(Apply(s, c), id)
    ensures Queued(Apply(s, c), id) ==> Apply(s, c).timers[id].activated
    ensures Queued(Apply(s, c), id)
       <==> if c.id == id && (c.Start? || c.Stop?) then c.Start? else Queued(s, id)
  {
    var s' := Apply(s, c);
    forall x | x in s.timers
      ensures x != id ==> (s'.timers[x].activated <==> Queued(s', x))
    {
      QueuedApply(s, c, x);
    }
    QueuedApply(s, c, id);
  }

  lemma {:induction false} RunScriptSnoc(s: State, cmds: seq<Cmd>, c: Cmd)
    requires CmdsOk(cmds + [c], s.timers.Keys)
    ensures CmdsOk(cmds, s.timers.Keys) && CmdOk(c, s.timers.Keys)
    ensures RunScript(s, cmds + [c]) == Apply(RunScript(s, cmds), c)
    decreases |cmds|
  {
    assert (cmds + [c])[|cmds|] == c;
    forall x | x in cmds ensures x in cmds + [c] {
    }
    if cmds == [] {
      assert cmds + [c] == [c];
    } else {
      assert (cmds + [c])[1..] == cmds[1..] + [c];
      assert Apply(s, cmds[0]).timers.Keys == s.timers.Keys;
      RunScriptSnoc(Apply(s, cmds[0]), cmds[1..], c);
    }
  }

  /** "A timer is pending exactly when its flag says ACTIVATED" survives a firing if and only if
      the callback of a one-shot timer does not end up restarting that timer. */
  lemma FiringKeepsFlagsIff(s: State, script: Script)
    requires Inv(s) && ScriptOk(script, s.timers.Keys) && FlagsAgree(s)
    requires s.queue != [] && s.queue[0].due <= s.now
    ensures var id := s.queue[0].id;
            var cmds := script(id, s.now);
            CmdsOk(cmds, Popped(s).timers.Keys) &&
            (FlagsAgree(FireFirst(s, script)) <==>
             RunScript(Popped(s), cmds).timers[id].periodic || !LastIsStart(cmds, id))
  {
    PoppedKeeps(s);
    var id, cmds := s.queue[0].id, script(s.queue[0].id, s.now);
    PoppedFlags(s);
    RunScriptKeeps(Popped(s), cmds);
    RunScriptFlags(Popped(s), cmds, id);
    var r := RunScript(Popped(s), cmds);
    if r.timers[id].periodic && r.timers[id].activated {
      FlagsApply(r, Start(id), id);
      assert FlagAgrees(FireFirst(s, script), id);
    } else {
      var r' := FireFirst(s, script);
      assert r'.queue == r.queue;
      forall x | x in r.timers ensures Queued(r', x) == Queued(r, x) {
      }
    }
  }

  lemma PoppedFlags(s: State)
    requires Inv(s) && FlagsAgree(s) && s.queue != []
    ensures var id := s.queue[0].id;
            id in s.timers && FlagsAgreeBut(Popped(s), id) && !Queued(Popped(s), id)
            && s.timers[id].activated
  {
    OrderedTail(s.queue);
    var id := s.queue[0].id;
    assert FlagAgrees(s, id) && Queued(s, id);
    forall x | x in s.timers && x != id ensures Queued(Popped(s), x) <==> s.timers[x].activated {
      assert FlagAgrees(s, x);
      if Queued(s, x) {
        var e :| e in s.queue && e.id == x;
        assert e in s.queue[1..];
      }
    }
  }

  /** The excluded case is real: a one-shot timer that restarts itself is pending with its flag
      cleared, and rt_timer_stop then reports an error and leaves it pending. */
  lemma OneShotSelfRestart()
    ensures var script: Script := (id, t) => [Start(0)];
            var s := State(7, 1, map[0 := Settings(5, false, true)], [Entry(0, 7, 0)]);
            && Inv(s) && ScriptOk(script, s.timers.Keys) && FlagsAgree(s)
            && var r := FireFirst(s, script);
               Queued(r, 0) && !r.timers[0].activated && StopOp(r, 0) == r
  {
    var script: Script := (id, t) => [Start(0)];
    var s := State(7, 1, map[0 := Settings(5, false, true)], [Entry(0, 7, 0)]);
    assert s.queue[0] in s.queue;
    assert Queued(s, 0);
    forall id, t ensures CmdsOk(script(id, t), s.timers.Keys) {
    }
    var cmds := script(0, 7);
    assert cmds[1..] == [];
    assert RunScript(Popped(s), cmds) == StartOp(Popped(s), 0);
    var r := FireFirst(s, script);
    assert r.queue[0] in r.queue;
    assert Queued(r, 0);
  }
}
