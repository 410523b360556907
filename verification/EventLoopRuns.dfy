/** The event loop with any number of threads that emit, start and stop timers, and remove
    receivers. Each critical section is one step; handlers run with the mutex free. */
module EventLoopRuns {
  import opened Options
  import opened EventLoop

  /** Where the loop's thread is. A wait ends at `until`, unless that is unset. */
  datatype Phase =
    | Running
    | HandlingTimer(handler: Receiver)
    | HandlingEvent(handler: Receiver)
    | Waiting(until: nat, notified: bool)
    | Ended

  /** `accepted` and `handled` are the events taken in and those whose handler was
      started; `removing` are receivers whose removal waits for their handler, `removed`
      those whose removal by another thread has returned. */
  datatype System = System(
    loop: Loop, phase: Phase, removing: set<Receiver>, removed: set<Receiver>,
    accepted: seq<Holder>, handled: seq<Holder>, cleared: bool)

  const START := System(Loop([], [], UNSET, 0, false, {}), Running, {}, {}, [], [], false)

  datatype Action =
    | Emit(r: Receiver, e: Event)
    | Remove(r: Receiver, byLoop: bool)
    | RemoveReturns(r: Receiver)
    | StartTimer(r: Receiver, now: nat, duration: nat, singleShot: bool)
    | StopTimer(id: nat)
    | Stop
    | Clear
    | Step(now: nat)
    | HandlerDone
    | Wake

  function Active(p: Phase): Option<Receiver> {
    match p
    case HandlingTimer(h) => Some(h)
    case HandlingEvent(h) => Some(h)
    case _ => None
  }

  predicate Enabled(y: System, a: Action) {
    match a
    case Remove(_, byLoop) => byLoop ==> Active(y.phase).Some?
    case RemoveReturns(r) => r in y.removing && Active(y.phase) != Some(r)
    case StartTimer(_, now, _, _) => now > 0
    case Clear => y.phase.Ended?
    case Step(now) => y.phase.Running? && now > 0
    case HandlerDone => Active(y.phase).Some?
    case Wake => y.phase.Waiting?
    case _ => true
  }

  function Notified(p: Phase, yes: bool): Phase {
    if yes && p.Waiting? then p.(notified := true) else p
  }

  /** Round the loop of thread_entry, from its test to a handler or a wait. */
  function DoStep(y: System, now: nat): System {
    if y.loop.quit then y.(phase := Ended) else
      var fired := y.loop.Fires(now);
      var z := y.(loop := y.loop.Fired(now));
      if fired.Some? then z.(phase := HandlingTimer(fired.value.handler))
      else if z.loop.events != [] then
        z.(loop := z.loop.TakeEvent(), phase := HandlingEvent(z.loop.events[0].handler),
           handled := y.handled + [z.loop.events[0]])
      else z.(phase := Waiting(z.loop.nextTrigger, false))
  }

  function Apply(y: System, a: Action): System
    requires Enabled(y, a)
  {
    match a
    case Emit(r, e) =>
      y.(loop := y.loop.Emit(r, e), phase := Notified(y.phase, y.loop.EmitNotifies(r)),
         accepted := if y.loop.Takes(r) then y.accepted + [Holder(e, r)] else y.accepted)
    case Remove(r, byLoop) =>
      var z := y.(loop := y.loop.Remove(r));
      if byLoop then z
      else if Active(y.phase) == Some(r) then z.(removing := y.removing + {r})
      else z.(removed := y.removed + {r})
    case RemoveReturns(r) => y.(removing := y.removing - {r}, removed := y.removed + {r})
    case StartTimer(r, now, duration, singleShot) =>
      y.(loop := y.loop.StartTimer(r, now, duration, singleShot),
         phase := Notified(y.phase, y.loop.StartTimerNotifies(r, now, duration)))
    case StopTimer(id) => y.(loop := y.loop.StopTimer(id))
    case Stop => y.(loop := y.loop.(quit := true), phase := Notified(y.phase, true))
    case Clear => y.(loop := y.loop.(events := [], timers := []), cleared := true)
    case Step(now) => DoStep(y, now)
    case HandlerDone =>
      y.(phase := if y.phase.HandlingTimer? || y.loop.events != [] || y.loop.quit then Running
                  else Waiting(y.loop.nextTrigger, false))
    case Wake => y.(phase := Running)
  }

  ghost predicate IsRun(ys: seq<System>, actions: seq<Action>) {
    && |ys| == |actions| + 1 && ys[0] == START
    && forall i :: 0 <= i < |actions| ==> Enabled(ys[i], actions[i]) && ys[i + 1] == Apply(ys[i], actions[i])
  }

  // ---- the invariant ----

  /** With timers there is a next trigger, no later than any of them. */
  ghost predicate TriggerKnown(l: Loop) {
    && (l.timers != [] ==> l.nextTrigger != UNSET)
    && forall i :: 0 <= i < |l.timers| ==> l.nextTrigger <= l.timers[i].nextTrigger
  }

  ghost predicate Rising(s: seq<Timer>) {
    forall i, j :: 0 <= i < j < |s| ==> s[i].id < s[j].id
  }

  ghost predicate Within(s: seq<Timer>, last: nat) {
    forall i :: 0 <= i < |s| ==> s[i].id <= last
  }

  /** Timer handles are given out once and in rising order. */
  ghost predicate HandlesRise(l: Loop) {
    Rising(l.timers) && Within(l.timers, l.lastHandle)
  }

  ghost predicate DisabledGone(l: Loop) {
    && (forall i :: 0 <= i < |l.events| ==> l.events[i].handler !in l.disabled)
    && (forall i :: 0 <= i < |l.timers| ==> l.timers[i].handler !in l.disabled)
  }

  ghost predicate LoopInv(l: Loop) {
    TriggerKnown(l) && HandlesRise(l) && DisabledGone(l)
  }

  /** While the thread sleeps and nobody has woken it, there is no event, and the cached
      trigger is the one it sleeps to unless the last timer was stopped. */
  ghost predicate SleepsSoundly(y: System) {
    y.phase.Waiting? && !y.phase.notified ==>
      && y.loop.events == [] && !y.loop.quit
      && (y.loop.nextTrigger == y.phase.until || y.loop.nextTrigger == UNSET)
  }

  /** The events for one receiver. */
  function For(s: seq<Holder>, r: Receiver): seq<Holder>
    decreases |s|
  {
    if s == [] then [] else (if s[0].handler == r then [s[0]] else []) + For(s[1..], r)
  }

  ghost predicate InOrder(y: System, r: Receiver) {
    && For(y.handled, r) <= For(y.accepted, r)
    && (r !in y.loop.disabled && !y.cleared ==>
        For(y.accepted, r) == For(y.handled, r) + For(y.loop.events, r))
  }

  ghost predicate Removals(y: System) {
    && (forall r :: r in y.removing || r in y.removed ==> r in y.loop.disabled)
    && (forall r :: r in y.removed ==> Active(y.phase) != Some(r))
  }

  ghost predicate Inv(y: System) {
    && LoopInv(y.loop) && SleepsSoundly(y) && Removals(y)
    && (y.cleared ==> y.phase.Ended?)
    && forall r :: InOrder(y, r)
  }

  lemma {:induction false} ForConcat(s: seq<Holder>, t: seq<Holder>, r: Receiver)
    ensures For(s + t, r) == For(s, r) + For(t, r)
    decreases |s|
  {
    if s == [] {
      assert s + t == t;
    } else {
      ForConcat(s[1..], t, r);
      assert (s + t)[1..] == s[1..] + t;
    }
  }

  lemma {:induction false} ForWithout(s: seq<Holder>, gone: Receiver, r: Receiver)
    requires r != gone
    ensures For(EventsWithout(s, gone), r) == For(s, r)
    decreases |s|
  {
    if s != [] {
      ForWithout(s[1..], gone, r);
      var first := if s[0].handler == gone then [] else [s[0]];
      ForConcat(first, EventsWithout(s[1..], gone), r);
      ForConcat([s[0]], s[1..], r);
      assert s == [s[0]] + s[1..];
      assert s[0].handler == gone ==> For([s[0]], r) == [];
    }
  }

  lemma {:induction false} WithoutEvents(s: seq<Holder>, gone: Receiver)
    ensures forall i :: 0 <= i < |EventsWithout(s, gone)| ==>
      EventsWithout(s, gone)[i].handler != gone && EventsWithout(s, gone)[i] in s
    decreases |s|
  {
    if s != [] {
      WithoutEvents(s[1..], gone);
    }
  }

  lemma {:induction false} WithoutTimers(s: seq<Timer>, gone: Receiver)
    ensures forall i :: 0 <= i < |TimersWithout(s, gone)| ==>
      TimersWithout(s, gone)[i].handler != gone && TimersWithout(s, gone)[i] in s
    decreases |s|
  {
    if s != [] {
      WithoutTimers(s[1..], gone);
    }
  }

  lemma {:induction false} WithoutKeeps(s: seq<Timer>, gone: Receiver, t: Timer)
    requires t in s && t.handler != gone
    ensures t in TimersWithout(s, gone)
    decreases |s|
  {
    if s[0] != t {
      assert t in s[1..];
      WithoutKeeps(s[1..], gone, t);
    }
  }

  lemma {:induction false} WithoutAfter(s: seq<Timer>, gone: Receiver, id: nat)
    requires forall k :: 0 <= k < |s| ==> id < s[k].id
    ensures forall k :: 0 <= k < |TimersWithout(s, gone)| ==> id < TimersWithout(s, gone)[k].id
    decreases |s|
  {
    if s != [] {
      WithoutAfter(s[1..], gone, id);
    }
  }

  lemma {:induction false} WithoutRises(s: seq<Timer>, gone: Receiver, last: nat)
    requires Rising(s) && Within(s, last)
    ensures Rising(TimersWithout(s, gone)) && Within(TimersWithout(s, gone), last)
    decreases |s|
  {
    if s != [] {
      TailRises(s, last);
      WithoutRises(s[1..], gone, last);
      WithoutAfter(s[1..], gone, s[0].id);
      var rest := TimersWithout(s[1..], gone);
      assert [] + rest == rest;
      hide Rising, Within;
      ConsRises(s[0], rest, last);
    }
  }

  lemma TailRises(s: seq<Timer>, last: nat)
    requires Rising(s) && Within(s, last) && s != []
    ensures Rising(s[1..]) && Within(s[1..], last) && s[0].id <= last
    ensures forall k :: 0 <= k < |s[1..]| ==> s[0].id < s[1..][k].id
  {
  }

  lemma ConsRises(t: Timer, rest: seq<Timer>, last: nat)
    requires Rising(rest) && Within(rest, last) && t.id <= last
    requires forall j :: 0 <= j < |rest| ==> t.id < rest[j].id
    ensures Rising([t] + rest) && Within([t] + rest, last)
  {
  }

  lemma CutRises(s: seq<Timer>, i: nat, last: nat)
    requires Rising(s) && Within(s, last) && i < |s|
    ensures Rising(s[..i] + s[i + 1..]) && Within(s[..i] + s[i + 1..], last)
    ensures forall t :: t in s[..i] + s[i + 1..] <==> t in s && t.id != s[i].id
  {
    var r := s[..i] + s[i + 1..];
    assert forall k :: 0 <= k < |r| ==> r[k] == s[if k < i then k else k + 1];
    forall t | t in s && t.id != s[i].id
      ensures t in r
    {
      var k :| 0 <= k < |s| && s[k] == t;
      assert r[if k < i then k else k - 1] == t;
    }
  }

  lemma UpdateRises(s: seq<Timer>, i: nat, t: Timer, last: nat)
    requires Rising(s) && Within(s, last) && i < |s| && t.id == s[i].id
    ensures Rising(s[i := t]) && Within(s[i := t], last)
    ensures forall u :: u in s[i := t] ==> exists v :: v in s && v.id == u.id
  {
    forall u | u in s[i := t]
      ensures exists v :: v in s && v.id == u.id
    {
      var k :| 0 <= k < |s| && s[i := t][k] == u;
      assert s[k] in s;
    }
  }

  // ---- every step keeps it ----

  lemma FiredRises(l: Loop, now: nat)
    requires HandlesRise(l)
    ensures HandlesRise(l.Fired(now)) && l.Fired(now).lastHandle == l.lastHandle
    ensures forall t :: t in l.Fired(now).timers ==> exists u :: u in l.timers && u.id == t.id
  {
    hide Earliest, Rising, Within;
    var i := FirstDue(l.timers, now);
    if l.TimersDue(now) && i < |l.timers| {
      if l.timers[i].interval != 0 {
        UpdateRises(l.timers, i, l.timers[i].(nextTrigger := now + l.timers[i].interval), l.lastHandle);
      } else {
        CutRises(l.timers, i, l.lastHandle);
      }
    }
  }

  lemma FiredKept(l: Loop, now: nat)
    requires TriggerKnown(l) && DisabledGone(l) && now > 0
    ensures TriggerKnown(l.Fired(now)) && DisabledGone(l.Fired(now))
    ensures l.Fires(now).Some? ==> l.Fires(now).value.handler !in l.disabled
    ensures l.Fired(now).events == l.events && l.Fired(now).disabled == l.disabled && l.Fired(now).quit == l.quit
  {
    var z := l.Fired(now);
    if l.TimersDue(now) {
      forall i | 0 <= i < |z.timers|
        ensures z.timers[i].nextTrigger != UNSET && z.timers[i].handler !in l.disabled
      {
        hide Earliest;
      }
      EarliestIsLeast(z.timers);
    }
  }

  lemma EmitKept(y: System, r: Receiver, e: Event)
    requires Inv(y)
    ensures Inv(Apply(y, Emit(r, e)))
  {
    var h := Holder(e, r);
    forall x
      ensures InOrder(Apply(y, Emit(r, e)), x)
    {
      assert InOrder(y, x);
      ForConcat(y.accepted, [h], x);
      ForConcat(y.loop.events, [h], x);
      assert For(y.handled, x) + For(y.loop.events, x) + For([h], x)
          == For(y.handled, x) + (For(y.loop.events, x) + For([h], x));
      hide For;
    }
  }

  lemma RemoveLoopKept(l: Loop, r: Receiver)
    requires LoopInv(l)
    ensures LoopInv(l.Remove(r))
  {
    WithoutTimers(l.timers, r);
    WithoutEvents(l.events, r);
    WithoutRises(l.timers, r, l.lastHandle);
    hide Rising, Within, TimersWithout, EventsWithout;
  }

  /** Removing a receiver takes out its timers and no others. */
  lemma RemoveTakesItsTimers(l: Loop, r: Receiver, t: Timer)
    ensures t in l.Remove(r).timers <==> t in l.timers && t.handler != r
  {
    WithoutTimers(l.timers, r);
    if t in l.timers && t.handler != r {
      WithoutKeeps(l.timers, r, t);
    }
  }

  lemma RemoveInOrder(y: System, r: Receiver, z: System, x: Receiver)
    requires InOrder(y, x) && z.loop == y.loop.Remove(r)
    requires z.accepted == y.accepted && z.handled == y.handled && z.cleared == y.cleared
    ensures InOrder(z, x)
  {
    if x != r {
      ForWithout(y.loop.events, r, x);
    }
  }

  lemma RemoveKept(y: System, r: Receiver, byLoop: bool)
    requires Inv(y) && Enabled(y, Remove(r, byLoop))
    ensures Inv(Apply(y, Remove(r, byLoop)))
  {
    var z := Apply(y, Remove(r, byLoop));
    RemoveLoopKept(y.loop, r);
    forall x
      ensures InOrder(z, x)
    {
      RemoveInOrder(y, r, z, x);
    }
    assert y.loop.events == [] ==> z.loop.events == [];
    hide InOrder, LoopInv, EventsWithout, TimersWithout;
  }

  lemma StartTimerKept(y: System, a: Action)
    requires Inv(y) && a.StartTimer? && Enabled(y, a)
    ensures Inv(Apply(y, a))
  {
    OrderApart(y, Apply(y, a));
    hide InOrder;
  }

  /** stop_timer takes out the timer with that handle and no other. */
  lemma StopTimerStops(l: Loop, id: nat)
    requires HandlesRise(l)
    ensures HandlesRise(l.StopTimer(id)) && l.StopTimer(id).lastHandle == l.lastHandle
    ensures forall t :: t in l.StopTimer(id).timers <==> t in l.timers && t.id != id
  {
    var i := IndexOf(l.timers, id);
    if i < |l.timers| {
      hide Rising, Within;
      CutRises(l.timers, i, l.lastHandle);
    }
  }

  lemma StopTimerKept(y: System, id: nat)
    requires Inv(y)
    ensures Inv(Apply(y, StopTimer(id)))
  {
    OrderApart(y, Apply(y, StopTimer(id)));
    StopTimerStops(y.loop, id);
    hide InOrder, Rising, Within;
  }

  lemma OrderApart(y: System, z: System)
    requires forall r :: InOrder(y, r)
    requires z.handled == y.handled && z.accepted == y.accepted && (z.cleared || z.cleared == y.cleared)
    requires z.cleared || z.loop.events == y.loop.events
    requires y.loop.disabled <= z.loop.disabled
    ensures forall r :: InOrder(z, r)
  {
    forall r
      ensures InOrder(z, r)
    {
      assert InOrder(y, r);
    }
  }

  lemma TakeEventInOrder(y: System, now: nat)
    requires Inv(y) && y.loop.events != [] && !y.loop.quit && y.loop.Fires(now).None? && y.phase.Running?
    ensures forall r :: InOrder(DoStep(y, now), r)
  {
    var h := y.loop.events[0];
    forall r
      ensures InOrder(DoStep(y, now), r)
    {
      assert InOrder(y, r);
      ForConcat(y.handled, [h], r);
      assert y.loop.events == [h] + y.loop.events[1..];
      ForConcat([h], y.loop.events[1..], r);
      assert For(y.handled, r) + (For([h], r) + For(y.loop.events[1..], r))
          == For(y.handled, r) + For([h], r) + For(y.loop.events[1..], r);
      assert h.handler != r ==> For([h], r) == [];
      assert For(y.handled, r) + [] == For(y.handled, r);
      hide For;
    }
  }

  lemma FiresEnabled(l: Loop, now: nat)
    requires LoopInv(l) && now > 0
    ensures LoopInv(l.Fired(now))
    ensures l.events != [] ==> LoopInv(l.Fired(now).TakeEvent()) && l.events[0].handler !in l.disabled
  {
    FiredKept(l, now);
    FiredRises(l, now);
    hide Loop.Fired, Loop.Fires, Rising, Within, TriggerKnown;
    assert TriggerKnown(l.Fired(now)) && HandlesRise(l.Fired(now)) && DisabledGone(l.Fired(now));
    if l.events != [] {
      TakeEventKept(l.Fired(now));
    }
  }

  lemma TakeEventKept(l: Loop)
    requires LoopInv(l) && l.events != []
    ensures LoopInv(l.TakeEvent())
  {
    hide Rising, Within;
  }

  lemma StepInOrder(y: System, now: nat)
    requires Inv(y) && Enabled(y, Step(now))
    ensures forall r :: InOrder(DoStep(y, now), r)
  {
    if y.loop.events != [] && !y.loop.quit && y.loop.Fires(now).None? {
      TakeEventInOrder(y, now);
    } else {
      OrderApart(y, DoStep(y, now));
    }
  }

  lemma StepLoopKept(y: System, now: nat)
    requires LoopInv(y.loop) && Enabled(y, Step(now))
    ensures var z := DoStep(y, now);
      && LoopInv(z.loop) && SleepsSoundly(z)
      && (Active(z.phase).Some? ==> Active(z.phase).value !in y.loop.disabled)
      && z == y.(loop := z.loop, phase := z.phase, handled := z.handled)
      && z.loop.disabled == y.loop.disabled
  {
    FiredKept(y.loop, now);
    FiresEnabled(y.loop, now);
    hide LoopInv, Loop.Fired, Loop.Fires;
  }

  lemma StepKept(y: System, now: nat)
    requires Inv(y) && Enabled(y, Step(now))
    ensures Inv(DoStep(y, now))
  {
    StepInOrder(y, now);
    StepLoopKept(y, now);
    hide DoStep, InOrder, LoopInv, SleepsSoundly;
  }

  lemma InvKept(y: System, a: Action)
    requires Inv(y) && Enabled(y, a)
    ensures Inv(Apply(y, a))
  {
    match a
    case Emit(r, e) => EmitKept(y, r, e);
    case Remove(r, byLoop) => RemoveKept(y, r, byLoop);
    case StartTimer(_, _, _, _) => StartTimerKept(y, a);
    case StopTimer(id) => StopTimerKept(y, id);
    case Step(now) => StepKept(y, now);
    case _ =>
      OrderApart(y, Apply(y, a));
      hide InOrder;
  }

  lemma StartInv()
    ensures Inv(START)
  {
  }

  lemma {:induction false} RunInv(ys: seq<System>, actions: seq<Action>, i: nat)
    requires IsRun(ys, actions) && i < |ys|
    ensures Inv(ys[i])
    decreases i
  {
    hide Inv, Enabled, Apply, START;
    if i == 0 {
      StartInv();
    } else {
      RunInv(ys, actions, i - 1);
      InvKept(ys[i - 1], actions[i - 1]);
    }
  }

  // ---- the main results ----

  /** A loop nobody has woken sleeps only with no event queued, and never past a timer. */
  lemma NeverOversleeps(ys: seq<System>, actions: seq<Action>, i: nat)
    requires IsRun(ys, actions) && i < |ys| && ys[i].phase.Waiting? && !ys[i].phase.notified
    ensures ys[i].loop.events == [] && !ys[i].loop.quit
    ensures forall t :: t in ys[i].loop.timers ==>
      ys[i].phase.until != UNSET && ys[i].phase.until <= t.nextTrigger
  {
    RunInv(ys, actions, i);
  }

  lemma TriggerIsCached(ys: seq<System>, actions: seq<Action>, i: nat)
    requires IsRun(ys, actions) && i < |ys|
    ensures forall t :: t in ys[i].loop.timers ==>
      ys[i].loop.nextTrigger != UNSET && ys[i].loop.nextTrigger <= t.nextTrigger
  {
    RunInv(ys, actions, i);
  }

  /** Events accepted for a live receiver are handled once each, in the order they were
      emitted: those handled so far come first, those still queued make up the rest. */
  lemma HandledOnceInOrder(ys: seq<System>, actions: seq<Action>, i: nat, r: Receiver)
    requires IsRun(ys, actions) && i < |ys|
    ensures For(ys[i].handled, r) <= For(ys[i].accepted, r)
    ensures r !in ys[i].loop.disabled && !ys[i].cleared ==>
      For(ys[i].accepted, r) == For(ys[i].handled, r) + For(ys[i].loop.events, r)
  {
    RunInv(ys, actions, i);
    assert InOrder(ys[i], r);
  }

  /** Does this step start the handler of r? */
  predicate Starts(y: System, a: Action, r: Receiver)
    requires Enabled(y, a)
  {
    Active(Apply(y, a).phase) == Some(r) && Active(y.phase) != Some(r)
  }

  /** Of all steps only a round of the loop does. */
  lemma OnlyStepsStart(y: System, a: Action, r: Receiver)
    requires Enabled(y, a) && Starts(y, a, r)
    ensures a.Step?
  {
  }

  lemma StartsOnlyEnabled(y: System, a: Action, r: Receiver)
    requires Inv(y) && Enabled(y, a) && Starts(y, a, r)
    ensures r !in y.loop.disabled
  {
    OnlyStepsStart(y, a, r);
    FiredKept(y.loop, a.now);
  }

  lemma {:induction false} DisabledStays(ys: seq<System>, actions: seq<Action>, i: nat, j: nat)
    requires IsRun(ys, actions) && i <= j < |ys|
    ensures ys[i].loop.disabled <= ys[j].loop.disabled && ys[i].removed <= ys[j].removed
    decreases j
  {
    hide Enabled, Apply;
    if i < j {
      DisabledStays(ys, actions, i, j - 1);
      DisabledKept(ys[j - 1], actions[j - 1]);
    }
  }

  lemma DisabledKept(y: System, a: Action)
    requires Enabled(y, a)
    ensures y.loop.disabled <= Apply(y, a).loop.disabled && y.removed <= Apply(y, a).removed
  {
  }

  /** From the moment a receiver is being removed no step starts its handler, and once the
      removal has returned to another thread the handler is not running either. */
  lemma RemovedIsNeverStarted(ys: seq<System>, actions: seq<Action>, i: nat, j: nat, r: Receiver)
    requires IsRun(ys, actions) && i <= j < |ys| && r in ys[i].loop.disabled
    ensures j < |actions| ==> !Starts(ys[j], actions[j], r)
    ensures r in ys[i].removed ==> Active(ys[j].phase) != Some(r)
  {
    RunInv(ys, actions, j);
    DisabledStays(ys, actions, i, j);
    if j < |actions| && Starts(ys[j], actions[j], r) {
      StartsOnlyEnabled(ys[j], actions[j], r);
    }
  }

  /** A timer fires exactly if one is due, and it is a due one. */
  lemma DueTimerFires(ys: seq<System>, actions: seq<Action>, i: nat, now: nat)
    requires IsRun(ys, actions) && i < |ys|
    ensures var l := ys[i].loop;
      && (l.Fires(now).Some? <==> exists t :: t in l.timers && t.nextTrigger <= now)
      && (l.Fires(now).Some? ==> l.Fires(now).value in l.timers && l.Fires(now).value.nextTrigger <= now)
  {
    RunInv(ys, actions, i);
    var l := ys[i].loop;
    if t :| t in l.timers && t.nextTrigger <= now {
      assert l.nextTrigger != UNSET && l.nextTrigger <= t.nextTrigger;
    }
  }

  /** Is this handle one that was given out and no timer has any more? */
  ghost predicate HandleGone(l: Loop, id: nat) {
    id <= l.lastHandle && forall t :: t in l.timers ==> t.id != id
  }

  lemma HandleGoneKept(y: System, a: Action, id: nat)
    requires Inv(y) && Enabled(y, a) && HandleGone(y.loop, id)
    ensures HandleGone(Apply(y, a).loop, id)
  {
    match a
    case Remove(r, _) =>
      WithoutTimers(y.loop.timers, r);
    case Step(now) =>
      FiredRises(y.loop, now);
      hide Loop.Fired, Loop.Fires, Inv, LoopInv;
    case StopTimer(other) =>
      StopTimerStops(y.loop, other);
      hide Loop.StopTimer, Inv, LoopInv;
    case _ =>
      hide Inv;
  }

  lemma {:induction false} HandleStaysGone(ys: seq<System>, actions: seq<Action>, i: nat, j: nat, id: nat)
    requires IsRun(ys, actions) && i <= j < |ys| && HandleGone(ys[i].loop, id)
    ensures HandleGone(ys[j].loop, id)
    decreases j
  {
    hide Enabled, Apply, Inv, HandleGone;
    if i < j {
      HandleStaysGone(ys, actions, i, j - 1, id);
      RunInv(ys, actions, j - 1);
      HandleGoneKept(ys[j - 1], actions[j - 1], id);
    }
  }

  /** Once its timer was stopped, or removed otherwise, a handle never fires again. */
  lemma StoppedTimerNeverFires(ys: seq<System>, actions: seq<Action>, i: nat, j: nat, id: nat, now: nat)
    requires IsRun(ys, actions) && i < j < |ys|
    requires actions[i] == StopTimer(id) && id <= ys[i].loop.lastHandle
    ensures ys[j].loop.Fires(now).Some? ==> ys[j].loop.Fires(now).value.id != id
  {
    RunInv(ys, actions, i);
    StopTimerStops(ys[i].loop, id);
    assert HandleGone(ys[i + 1].loop, id);
    HandleStaysGone(ys, actions, i + 1, j, id);
    DueTimerFires(ys, actions, j, now);
  }
}
