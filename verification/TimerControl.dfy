/** What rt_timer_start, rt_timer_stop and rt_timer_control of rt-thread/src/timer.c:270-480 do to the deadline that is
    met next and to those after it. */
module TimerControl {
  import opened TimerSpec

  // ---- one call ----

  // Nothing but timer `id` and its deadlines has changed
  ghost predicate OnlyTimer(s: State, s': State, id: nat) {
    && s'.now == s.now && s'.timers.Keys == s.timers.Keys
    && (forall x :: x in s.timers && x != id ==> s'.timers[x] == s.timers[x])
    && (forall e: Entry :: e.id != id ==> (e in s'.queue <==> e in s.queue))
  }

  /** rt_timer_start: the one deadline of the timer is its time from now on, whatever it was before. */
  lemma StartSets(s: State, id: nat)
    requires Inv(s) && id in s.timers
    ensures var s' := Apply(s, Start(id));
            && OnlyTimer(s, s', id) && s'.timers[id] == s.timers[id].(activated := true)
            && PendingAt(s', id, s.now + s.timers[id].init)
            && forall e :: e in s'.queue && e.id == id ==> e.due == s.now + s.timers[id].init
  {
    WithoutKeeps(s.queue, id);
    var e := Entry(id, s.now + s.timers[id].init, s.starts);
    StableInsertKeeps(Without(s.queue, id), e);
    assert e in Apply(s, Start(id)).queue;
  }

  /** rt_timer_stop: an activated timer has no deadline any more, and any other is left as it is. */
  lemma StopClears(s: State, id: nat)
    requires Inv(s) && id in s.timers
    ensures var s' := Apply(s, Stop(id));
            && OnlyTimer(s, s', id) && !s'.timers[id].activated
            && (s.timers[id].activated ==> !Queued(s', id) && s'.timers[id] == s.timers[id].(activated := false))
            && (!s.timers[id].activated ==> s' == s)
  {
    WithoutKeeps(s.queue, id);
  }

  /** RT_TIMER_CTRL_SET_TIME: no pending deadline moves, not even that of the timer; only its time is another one. */
  lemma SetTimeKeeps(s: State, id: nat, init: nat)
    requires Inv(s) && id in s.timers && GoodInit(init)
    ensures var s' := Apply(s, SetTime(id, init));
            && OnlyTimer(s, s', id) && s'.queue == s.queue
            && s'.timers[id].init == init && s'.timers[id].(init := s.timers[id].init) == s.timers[id]
  {
  }

  /** RT_TIMER_CTRL_SET_PERIODIC and _ONESHOT: the same for the flag. */
  lemma SetPeriodicKeeps(s: State, id: nat, b: bool)
    requires Inv(s) && id in s.timers
    ensures var s' := Apply(s, SetPeriodic(id, b));
            && OnlyTimer(s, s', id) && s'.queue == s.queue
            && s'.timers[id].periodic == b && s'.timers[id].(periodic := s.timers[id].periodic) == s.timers[id]
  {
  }

  /** The way every call with a timeout takes: the time is set, the timer is started, and it is pending at that time. */
  lemma SetTimeStart(s: State, id: nat, init: nat)
    requires Inv(s) && id in s.timers && GoodInit(init)
    ensures var s' := RunScript(s, [SetTime(id, init), Start(id)]);
            && OnlyTimer(s, s', id) && PendingAt(s', id, s.now + init) && s'.timers[id].activated
            && forall e :: e in s'.queue && e.id == id ==> e.due == s.now + init
  {
    hide PendingAt, Apply, Inv, RunScript;
    var s1 := Apply(s, SetTime(id, init));
    ApplyKeeps(s, SetTime(id, init));
    SetTimeKeeps(s, id, init);
    StartSets(s1, id);
    TwoCommands(s, SetTime(id, init), Start(id));
  }

  lemma TwoCommands(s: State, c: Cmd, d: Cmd)
    requires CmdOk(c, s.timers.Keys) && CmdOk(d, s.timers.Keys)
    ensures Apply(s, c).timers.Keys == s.timers.Keys && RunScript(s, [c, d]) == Apply(Apply(s, c), d)
  {
    hide Apply;
    KeysKept(s, c);
    KeysKept(Apply(s, c), d);
    assert [c, d][1..] == [d] && [d][1..] == [];
    assert RunScript(Apply(s, c), [d]) == Apply(Apply(s, c), d);
  }

  lemma KeysKept(s: State, c: Cmd)
    requires CmdOk(c, s.timers.Keys)
    ensures Apply(s, c).timers.Keys == s.timers.Keys
  {
    hide StableInsert, Without;
  }

  // ---- what a timeout function does to its own timer ----

  lemma OneCommand(s: State, script: Script, c: Cmd)
    requires Inv(s) && ScriptOk(script, s.timers.Keys) && s.queue != [] && s.queue[0].due <= s.now
    requires script(s.queue[0].id, s.now) == [c]
    ensures s.queue[0].id in s.timers && Inv(Popped(s)) && !Queued(Popped(s), s.queue[0].id)
    ensures CmdOk(c, s.timers.Keys) && RunScript(Popped(s), [c]) == Apply(Popped(s), c)
  {
    PoppedKeeps(s);
    assert CmdsOk(script(s.queue[0].id, s.now), s.timers.Keys) && c in [c] && [c][1..] == [];
  }

  /** A new period that the timeout function of a periodic timer sets is the one it is started again with. */
  lemma OwnPeriod(s: State, script: Script, init: nat)
    requires Inv(s) && ScriptOk(script, s.timers.Keys) && s.queue != [] && s.queue[0].due <= s.now
    requires s.queue[0].id in s.timers && s.timers[s.queue[0].id].periodic && s.timers[s.queue[0].id].activated
    requires script(s.queue[0].id, s.now) == [SetTime(s.queue[0].id, init)]
    ensures PendingAt(FireFirst(s, script), s.queue[0].id, s.now + init)
  {
    hide PendingAt, Queued, StartOp;
    var id := s.queue[0].id;
    OneCommand(s, script, SetTime(id, init));
    SetTimeKeeps(Popped(s), id, init);
    ApplyKeeps(Popped(s), SetTime(id, init));
    StartSets(Apply(Popped(s), SetTime(id, init)), id);
  }

  /** A periodic timer that its timeout function stops, or makes a one-shot timer, is not started again. */
  lemma OwnStop(s: State, script: Script, c: Cmd)
    requires Inv(s) && ScriptOk(script, s.timers.Keys) && s.queue != [] && s.queue[0].due <= s.now
    requires s.queue[0].id in s.timers && c in {Stop(s.queue[0].id), SetPeriodic(s.queue[0].id, false)}
    requires script(s.queue[0].id, s.now) == [c]
    ensures var r := FireFirst(s, script); !Queued(r, s.queue[0].id) && !r.timers[s.queue[0].id].activated
  {
    hide StartOp;
    OneCommand(s, script, c);
    QueuedApply(Popped(s), c, s.queue[0].id);
    WithoutKeeps(Popped(s).queue, s.queue[0].id);
  }

  // ---- the next firing of a timer that nobody commands until then ----

  lemma {:induction false} CheckSettings(s: State, script: Script, e: Entry)
    requires Inv(s) && ScriptOk(script, s.timers.Keys) && e in s.queue && Spares(script, e.id) && e.due > s.now
    ensures e.id in Check(s, script).0.timers && Check(s, script).0.timers[e.id] == s.timers[e.id]
    decreases DueCount(s.queue, s.now)
  {
    OrderedTail(s.queue);
    if s.queue[0].due <= s.now {
      CheckUnfolds(s, script);
      FireFirstSpares(s, script, e);
      FireFirstSettings(s, script, e.id);
      CheckSettings(FireFirst(s, script), script, e);
    }
  }

  /** A one-shot timer that fires has no deadline afterwards, and its flag is cleared. */
  lemma {:induction false} OneShotEnds(s: State, script: Script, e: Entry)
    requires Inv(s) && ScriptOk(script, s.timers.Keys) && e in s.queue && e.due == s.now
    requires Spares(script, e.id) && !s.timers[e.id].periodic
    ensures var r := Check(s, script).0; e.id in r.timers && !Queued(r, e.id) && !r.timers[e.id].activated
    decreases DueCount(s.queue, s.now)
  {
    OrderedTail(s.queue);
    CheckUnfolds(s, script);
    var s1 := FireFirst(s, script);
    if e == s.queue[0] {
      FireFirstEnds(s, script);
      CheckNothing(s1, script, e.id);
    } else {
      FireFirstSpares(s, script, e);
      FireFirstSettings(s, script, e.id);
      OneShotEnds(s1, script, e);
    }
  }

  lemma FireFirstEnds(s: State, script: Script)
    requires Inv(s) && ScriptOk(script, s.timers.Keys) && s.queue != [] && s.queue[0].due <= s.now
    requires Spares(script, s.queue[0].id) && s.queue[0].id in s.timers && !s.timers[s.queue[0].id].periodic
    ensures var (r, id) := (FireFirst(s, script), s.queue[0].id); !Queued(r, id) && !r.timers[id].activated
  {
    PoppedKeeps(s);
    var id := s.queue[0].id;
    assert CmdsSpare(script(id, s.now), id);
    RunScriptKeeps(Popped(s), script(id, s.now));
    RunScriptSettings(Popped(s), script(id, s.now), id);
    RunScriptQueued(Popped(s), script(id, s.now), id);
    assert !Queued(Popped(s), id);
    assert FireFirst(s, script).queue == RunScript(Popped(s), script(id, s.now)).queue;
  }

  lemma {:induction false} RunScriptQueued(s: State, cmds: seq<Cmd>, id: nat)
    requires Inv(s) && CmdsOk(cmds, s.timers.Keys) && CmdsSpare(cmds, id)
    ensures Queued(RunScript(s, cmds), id) <==> Queued(s, id)
    decreases |cmds|
  {
    if cmds != [] {
      QueuedApply(s, cmds[0], id);
      ApplyKeeps(s, cmds[0]);
      RunScriptQueued(Apply(s, cmds[0]), cmds[1..], id);
    }
  }

  // A timer without a deadline gets none from the callbacks of others
  lemma {:induction false} CheckNothing(s: State, script: Script, id: nat)
    requires Inv(s) && ScriptOk(script, s.timers.Keys) && id in s.timers && Spares(script, id) && !Queued(s, id)
    ensures var r := Check(s, script).0; id in r.timers && !Queued(r, id) && r.timers[id] == s.timers[id]
    decreases DueCount(s.queue, s.now)
  {
    if s.queue != [] && s.queue[0].due <= s.now {
      assert s.queue[0] in s.queue;
      CheckUnfolds(s, script);
      FireFirstSettings(s, script, id);
      FireFirstNothing(s, script, id);
      CheckNothing(FireFirst(s, script), script, id);
    }
  }

  lemma FireFirstNothing(s: State, script: Script, id: nat)
    requires Inv(s) && ScriptOk(script, s.timers.Keys) && s.queue != [] && s.queue[0].due <= s.now
    requires id in s.timers && Spares(script, id) && !Queued(s, id)
    ensures !Queued(FireFirst(s, script), id)
  {
    PoppedKeeps(s);
    var fired := s.queue[0].id;
    assert s.queue[0] in s.queue;
    var cmds := script(fired, s.now);
    assert CmdsSpare(cmds, id);
    RunScriptKeeps(Popped(s), cmds);
    RunScriptQueued(Popped(s), cmds, id);
    var s2 := RunScript(Popped(s), cmds);
    if s2.timers[fired].periodic && s2.timers[fired].activated {
      QueuedApply(s2, Start(fired), id);
    }
  }

  // What the firing of a timer leaves, by its settings
  predicate Outcome(r: State, e: Entry, t: Settings) {
    && e.id in r.timers
    && if t.periodic then PendingAt(r, e.id, e.due + t.init) else !Queued(r, e.id) && !r.timers[e.id].activated
  }

  lemma TickFires(s: State, script: Script, e: Entry)
    requires Settled(s) && ScriptOk(script, s.timers.Keys) && e in s.queue && e.due == s.now + 1
    requires Spares(script, e.id) && s.timers[e.id].activated
    ensures Outcome(Step(s, Tick, script).0, e, s.timers[e.id])
  {
    hide FireFirst, Popped;
    var s1 := Ticked(s);
    CheckFiresDue(s1, script);
    if s.timers[e.id].periodic {
      PeriodicTimerRearms(s1, script, e);
    } else {
      OneShotEnds(s1, script, e);
    }
  }

  lemma TickPasses(s: State, script: Script, e: Entry)
    requires Settled(s) && ScriptOk(script, s.timers.Keys) && e in s.queue && e.due > s.now + 1 && Spares(script, e.id)
    ensures var r := Step(s, Tick, script).0; e in r.queue && e.id in r.timers && r.timers[e.id] == s.timers[e.id]
  {
    TickKeepsUntouched(s, script, e);
    CheckSettings(Ticked(s), script, e);
  }

  lemma DoPasses(s: State, c: Cmd, e: Entry, t: Settings)
    requires Inv(s) && CmdOk(c, s.timers.Keys) && c.id != e.id
    ensures e.id in s.timers ==> Apply(s, c).timers[e.id] == s.timers[e.id]
    ensures e in s.queue ==> e in Apply(s, c).queue
    ensures Outcome(s, e, t) ==> Outcome(Apply(s, c), e, t)
  {
    ApplyKeeps(s, c);
    QueuedApply(s, c, e.id);
    if PendingAt(s, e.id, e.due + t.init) {
      var x :| x in s.queue && x.id == e.id && x.due == e.due + t.init;
      assert x in Apply(s, c).queue;
    }
  }

  /** A timer that nobody commands until it fires is then pending one period later if it is periodic; else it has no
      deadline and its flag is cleared. */
  lemma {:induction false} NextFiring(s: State, events: seq<Event>, script: Script, e: Entry)
    requires Settled(s) && ScriptOk(script, s.timers.Keys) && EventsOk(events, s.timers.Keys)
    requires e in s.queue && Spares(script, e.id) && s.timers[e.id].activated
    requires forall ev :: ev in events && ev.Do? ==> ev.cmd.id != e.id
    requires s.now + Ticks(events) == e.due
    ensures Outcome(Run(s, events, script).0, e, s.timers[e.id])
    decreases |events|
  {
    hide Outcome, Check, Apply, Settled;
    Unmet(s, e);
    RunUnfolds(s, events, script);
    assert events[0] in events;
    var s1 := Step(s, events[0], script).0;
    var t := s.timers[e.id];
    if events[0].Tick? && e.due == s.now + 1 {
      TickFires(s, script, e);
      Afterwards(s1, events[1..], script, e, t);
    } else {
      if events[0].Tick? {
        TickPasses(s, script, e);
      } else {
        SettledInv(s);
        DoPasses(s, events[0].cmd, e, t);
        StepDo(s, events[0].cmd, script);
      }
      NextFiring(s1, events[1..], script, e);
    }
  }

  lemma SettledInv(s: State)
    requires Settled(s)
    ensures Inv(s)
  {
  }

  lemma Unmet(s: State, e: Entry)
    requires Settled(s) && e in s.queue
    ensures s.now < e.due && e.id in s.timers
  {
  }

  lemma StepDo(s: State, c: Cmd, script: Script)
    requires Settled(s) && ScriptOk(script, s.timers.Keys) && CmdOk(c, s.timers.Keys)
    ensures Step(s, Do(c), script).0 == Apply(s, c)
  {
  }

  // Events without a tick that spare the timer
  lemma {:induction false} Afterwards(s: State, events: seq<Event>, script: Script, e: Entry, t: Settings)
    requires Settled(s) && ScriptOk(script, s.timers.Keys) && EventsOk(events, s.timers.Keys)
    requires Outcome(s, e, t) && Ticks(events) == 0 && forall ev :: ev in events && ev.Do? ==> ev.cmd.id != e.id
    ensures Outcome(Run(s, events, script).0, e, t)
    decreases |events|
  {
    hide Outcome, Check, Apply, Settled;
    if events != [] {
      RunUnfolds(s, events, script);
      assert events[0] in events;
      SettledInv(s);
      DoPasses(s, events[0].cmd, e, t);
      StepDo(s, events[0].cmd, script);
      Afterwards(Step(s, events[0], script).0, events[1..], script, e, t);
    }
  }

  /** So a new period counts from the next firing on: the pending deadline is met, and the one behind it is one new
      period later. */
  lemma NewPeriod(s: State, events: seq<Event>, script: Script, e: Entry, init: nat)
    requires Settled(s) && ScriptOk(script, s.timers.Keys) && EventsOk(events, s.timers.Keys) && GoodInit(init)
    requires e in s.queue && e.id in s.timers && Spares(script, e.id) && s.timers[e.id].activated
    requires s.timers[e.id].periodic && s.now + Ticks(events) == e.due
    requires forall ev :: ev in events && ev.Do? ==> ev.cmd.id != e.id
    ensures var s' := Apply(s, SetTime(e.id, init));
            && Settled(s') && s'.timers.Keys == s.timers.Keys
            && Firing(e, e.due) in Run(s', events, script).1
            && PendingAt(Run(s', events, script).0, e.id, e.due + init)
  {
    hide PendingAt, Run;
    var s' := Apply(s, SetTime(e.id, init));
    StepKeeps(s, Do(SetTime(e.id, init)), script);
    SetTimeKeeps(s, e.id, init);
    NextFiring(s', events, script, e);
    UntouchedTimerFires(s', events, script, e);
  }

  /** Whether a pending timer goes on after its next firing is what RT_TIMER_CTRL_SET_PERIODIC or _ONESHOT said last. */
  lemma NewMode(s: State, events: seq<Event>, script: Script, e: Entry, b: bool)
    requires Settled(s) && ScriptOk(script, s.timers.Keys) && EventsOk(events, s.timers.Keys)
    requires e in s.queue && e.id in s.timers && Spares(script, e.id) && s.timers[e.id].activated
    requires s.now + Ticks(events) == e.due
    requires forall ev :: ev in events && ev.Do? ==> ev.cmd.id != e.id
    ensures var s' := Apply(s, SetPeriodic(e.id, b));
            && Settled(s') && s'.timers.Keys == s.timers.Keys
            && Firing(e, e.due) in Run(s', events, script).1
            && if b then PendingAt(Run(s', events, script).0, e.id, e.due + s.timers[e.id].init)
               else !Queued(Run(s', events, script).0, e.id)
  {
    hide PendingAt, Run;
    var s' := Apply(s, SetPeriodic(e.id, b));
    StepKeeps(s, Do(SetPeriodic(e.id, b)), script);
    SetPeriodicKeeps(s, e.id, b);
    NextFiring(s', events, script, e);
    UntouchedTimerFires(s', events, script, e);
  }
}
