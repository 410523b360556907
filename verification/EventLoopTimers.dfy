/** What a caller of start_timer gets, told by the handle it was given, over runs of the
    event loop with other threads; and what emit and start_timer accept. */
module EventLoopTimers {
  import opened Options
  import opened EventLoop
  import opened EventLoopRuns

  // ---- who is refused ----

  /** The loop was told to stop, or the receiver was removed, by one of the first n steps. */
  predicate Refused(actions: seq<Action>, n: nat, r: Receiver)
    requires n <= |actions|
  {
    exists k :: 0 <= k < n && (actions[k] == Stop || (actions[k].Remove? && actions[k].r == r))
  }

  lemma {:induction false} RefusedExactly(ys: seq<System>, actions: seq<Action>, i: nat, r: Receiver)
    requires IsRun(ys, actions) && i < |ys|
    ensures Refused(actions, i, r) <==> ys[i].loop.quit || r in ys[i].loop.disabled
    decreases i
  {
    hide Enabled, Apply, Refused;
    if i == 0 {
      NobodyRefused(actions, r);
    } else {
      RefusedExactly(ys, actions, i - 1, r);
      RefusedMore(actions, i - 1, r);
      RefusedStep(ys[i - 1], actions[i - 1], r);
    }
  }

  lemma NobodyRefused(actions: seq<Action>, r: Receiver)
    ensures !Refused(actions, 0, r)
  {
  }

  lemma RefusedStep(y: System, a: Action, r: Receiver)
    requires Enabled(y, a)
    ensures var z := Apply(y, a);
      (z.loop.quit || r in z.loop.disabled) <==>
        (y.loop.quit || r in y.loop.disabled || a == Stop || (a.Remove? && a.r == r))
  {
  }

  lemma RefusedMore(actions: seq<Action>, i: nat, r: Receiver)
    requires i < |actions|
    ensures Refused(actions, i + 1, r) <==>
      Refused(actions, i, r) || actions[i] == Stop || (actions[i].Remove? && actions[i].r == r)
  {
  }

  /** emit takes an event in, last in the queue, unless the loop was stopped or the receiver
      removed before. */
  lemma EmitAcceptsExactly(ys: seq<System>, actions: seq<Action>, i: nat, r: Receiver, e: Event)
    requires IsRun(ys, actions) && i < |actions| && actions[i] == Emit(r, e)
    ensures var taken := if Refused(actions, i, r) then [] else [Holder(e, r)];
      ys[i + 1].accepted == ys[i].accepted + taken && ys[i + 1].loop.events == ys[i].loop.events + taken
  {
    RefusedExactly(ys, actions, i, r);
    assert ys[i].accepted + [] == ys[i].accepted && ys[i].loop.events + [] == ys[i].loop.events;
  }

  /** start_timer gives out the next handle under the same condition, and else does nothing. */
  lemma StartAcceptsExactly(ys: seq<System>, actions: seq<Action>, i: nat, r: Receiver)
    requires IsRun(ys, actions) && i < |actions| && actions[i].StartTimer? && actions[i].r == r
    ensures if Refused(actions, i, r) then ys[i + 1].loop == ys[i].loop
            else ys[i + 1].loop.lastHandle == ys[i].loop.lastHandle + 1
  {
    RefusedExactly(ys, actions, i, r);
  }

  // ---- one round of the loop ----

  predicate DueFirst(l: Loop, now: nat, t: Timer) {
    t in l.timers && t.nextTrigger <= now && forall u :: u in l.timers && u.nextTrigger <= now ==> t.id <= u.id
  }

  /** The cached trigger is the earliest of the timers, or not set without any. */
  ghost predicate Least(l: Loop) {
    && (l.timers == [] <==> l.nextTrigger == 0)
    && (forall t :: t in l.timers ==> l.nextTrigger <= t.nextTrigger)
    && (l.timers != [] ==> exists t :: t in l.timers && t.nextTrigger == l.nextTrigger)
  }

  /** A round ends in a stopped loop; fires the due timer of the lowest handle; else hands
      over the event at the front; else goes to sleep. */
  lemma RoundExactly(ys: seq<System>, actions: seq<Action>, i: nat, now: nat)
    requires IsRun(ys, actions) && i < |actions| && actions[i] == Step(now)
    ensures var (y, z) := (ys[i], ys[i + 1]);
      if y.loop.quit then z == y.(phase := Ended)
      else if exists t :: t in y.loop.timers && t.nextTrigger <= now then
        exists t :: DueFirst(y.loop, now, t) && y.loop.Fires(now) == Some(t) && z.phase == HandlingTimer(t.handler)
          && z.loop.events == y.loop.events && z.handled == y.handled
      else
        y.loop.Fires(now) == None && z.loop.timers == y.loop.timers
        && if y.loop.events != [] then
             z.phase == HandlingEvent(y.loop.events[0].handler)
             && z.handled == y.handled + [y.loop.events[0]] && z.loop.events == y.loop.events[1..]
           else z.phase == Waiting(z.loop.nextTrigger, false) && z.handled == y.handled
    ensures var (l, m) := (ys[i].loop, ys[i + 1].loop);
      if !l.quit && l.nextTrigger != 0 && l.nextTrigger <= now then Least(m) else m.nextTrigger == l.nextTrigger
  {
    RunInv(ys, actions, i);
    DueTimerFires(ys, actions, i, now);
    var l := ys[i].loop;
    if !l.quit && l.TimersDue(now) {
      FiredLeast(l, now);
    }
    if !l.quit && l.Fires(now).Some? {
      FirstIsLowest(l, now);
      assert DueFirst(l, now, l.Fires(now).value);
    }
  }

  lemma FiredLeast(l: Loop, now: nat)
    requires TriggerKnown(l) && l.TimersDue(now) && now > 0
    ensures Least(l.Fired(now))
  {
    var z := l.Fired(now);
    forall i | 0 <= i < |z.timers|
      ensures z.timers[i].nextTrigger != UNSET
    {
      hide Earliest;
    }
    EarliestIsLeast(z.timers);
    hide Earliest;
  }

  lemma FirstIsLowest(l: Loop, now: nat)
    requires HandlesRise(l) && l.Fires(now).Some?
    ensures DueFirst(l, now, l.Fires(now).value)
  {
    var i := FirstDue(l.timers, now);
    forall u | u in l.timers && u.nextTrigger <= now
      ensures l.timers[i].id <= u.id
    {
      var k :| 0 <= k < |l.timers| && l.timers[k] == u;
      assert i <= k;
    }
  }

  // ---- who wakes the loop ----

  /** A sleeping loop is woken exactly by a stop, by an event it takes in, and by a timer
      earlier than all there are. */
  lemma WakesExactly(ys: seq<System>, actions: seq<Action>, i: nat)
    requires IsRun(ys, actions) && i < |actions| && actions[i] != Wake
    requires ys[i].phase.Waiting? && !ys[i].phase.notified
    ensures var (y, a, z) := (ys[i], actions[i], ys[i + 1]);
      && z.phase.Waiting? && z.phase.until == y.phase.until
      && (z.phase.notified <==>
           || a == Stop
           || (a.Emit? && !Refused(actions, i, a.r))
           || (a.StartTimer? && !Refused(actions, i, a.r)
               && (y.loop.nextTrigger == 0 || a.now + a.duration < y.loop.nextTrigger)))
  {
    RunInv(ys, actions, i);
    var a := actions[i];
    if a.Emit? || a.StartTimer? {
      RefusedExactly(ys, actions, i, a.r);
    }
    hide Refused;
  }

  /** After a timer's handler the loop goes round again; after an event's it sleeps if
      nothing is queued and nobody stopped it. */
  lemma HandlerDoneExactly(ys: seq<System>, actions: seq<Action>, i: nat)
    requires IsRun(ys, actions) && i < |actions| && actions[i] == HandlerDone
    ensures var (y, z) := (ys[i], ys[i + 1]);
      z == y.(phase := if y.phase.HandlingEvent? && y.loop.events == [] && !y.loop.quit
                       then Waiting(y.loop.nextTrigger, false) else Running)
  {
  }

  /** stop_timer leaves the cached trigger alone unless it takes out the last timer. */
  lemma StopTimerTrigger(l: Loop, id: nat)
    requires HandlesRise(l)
    ensures l.StopTimer(id).nextTrigger ==
      if (exists t :: t in l.timers && t.id == id) && (forall t :: t in l.timers ==> t.id == id) then 0
      else l.nextTrigger
  {
    StopTimerStops(l, id);
    var z := l.StopTimer(id);
    if z.timers != [] {
      assert z.timers[0] in z.timers;
    }
    hide HandlesRise;
  }

  // ---- a timer by its handle ----

  /** The handle is taken by a timer that calls this receiver at this time. */
  ghost predicate Armed(l: Loop, id: nat, r: Receiver, due: nat) {
    exists t :: t in l.timers && t.id == id && t.handler == r && t.nextTrigger == due
  }

  /** start_timer was accepted as step i and gave out this handle. */
  ghost predicate Started(ys: seq<System>, actions: seq<Action>, i: nat, r: Receiver, id: nat)
    requires IsRun(ys, actions)
  {
    && i < |actions| && actions[i].StartTimer? && actions[i].r == r && !Refused(actions, i, r)
    && id == ys[i + 1].loop.lastHandle
  }

  /** Step j calls a receiver for the timer with this handle. */
  predicate Calls(y: System, a: Action, id: nat) {
    a.Step? && !y.loop.quit && y.loop.Fires(a.now).Some? && y.loop.Fires(a.now).value.id == id
  }

  /** What stays true of a handle: whom it calls, not before when, and how often. */
  ghost predicate Keeps(l: Loop, id: nat, r: Receiver, earliest: nat, interval: nat) {
    && id <= l.lastHandle
    && forall t :: t in l.timers && t.id == id ==>
      t.handler == r && t.nextTrigger >= earliest && t.interval == interval
  }

  /** What firing does to the timers, one by one. */
  lemma FiredTimers(l: Loop, now: nat)
    requires HandlesRise(l)
    ensures l.Fires(now).None? ==> l.Fired(now).timers == l.timers
    ensures l.Fires(now).Some? ==>
      var t := l.Fires(now).value;
      && t in l.timers && t.nextTrigger <= now
      && (forall u: Timer :: u.id != t.id ==> (u in l.Fired(now).timers <==> u in l.timers))
      && (forall u :: u in l.timers && u.id == t.id ==> u == t)
      && (forall u: Timer :: u.id == t.id ==>
           (u in l.Fired(now).timers <==> t.interval != 0 && u == t.(nextTrigger := now + t.interval)))
  {
    hide Earliest, Rising, Within;
    var i := FirstDue(l.timers, now);
    if l.TimersDue(now) && i < |l.timers| {
      CutRises(l.timers, i, l.lastHandle);
      OneOfEach(l.timers, i);
      if l.timers[i].interval != 0 {
        UpdatedTimers(l.timers, i, l.timers[i].(nextTrigger := now + l.timers[i].interval));
      }
    }
  }

  lemma OneOfEach(s: seq<Timer>, i: nat)
    requires Rising(s) && i < |s|
    ensures forall u :: u in s && u.id == s[i].id ==> u == s[i]
  {
  }

  lemma UpdatedTimers(s: seq<Timer>, i: nat, t: Timer)
    requires Rising(s) && i < |s| && t.id == s[i].id
    ensures forall u: Timer :: u.id != t.id ==> (u in s[i := t] <==> u in s)
    ensures forall u: Timer :: u.id == t.id ==> (u in s[i := t] <==> u == t)
  {
    var z := s[i := t];
    assert z[i] == t;
    forall u | u in s && u.id != t.id
      ensures u in z
    {
      var k :| 0 <= k < |s| && s[k] == u;
      assert z[k] == u;
    }
  }

  lemma KeepsKept(y: System, a: Action, id: nat, r: Receiver, earliest: nat, interval: nat)
    requires Inv(y) && Enabled(y, a) && Keeps(y.loop, id, r, earliest, interval)
    ensures Keeps(Apply(y, a).loop, id, r, earliest, interval)
  {
    match a
    case Remove(gone, _) =>
      WithoutTimers(y.loop.timers, gone);
    case Step(now) =>
      FiredKeeps(y.loop, now, id, r, earliest, interval);
      hide Loop.Fired, Loop.Fires, Inv, LoopInv;
    case StopTimer(other) =>
      StopTimerStops(y.loop, other);
      hide Loop.StopTimer, Inv, LoopInv;
    case _ =>
      hide Inv;
  }

  lemma FiredKeeps(l: Loop, now: nat, id: nat, r: Receiver, earliest: nat, interval: nat)
    requires HandlesRise(l) && Keeps(l, id, r, earliest, interval)
    ensures Keeps(l.Fired(now), id, r, earliest, interval)
  {
    FiredRises(l, now);
    FiredTimers(l, now);
    hide Loop.Fired, Loop.Fires, HandlesRise;
  }

  lemma {:induction false} KeepsStays(ys: seq<System>, actions: seq<Action>, i: nat, j: nat,
                                      id: nat, r: Receiver, earliest: nat, interval: nat)
    requires IsRun(ys, actions) && i <= j < |ys| && Keeps(ys[i].loop, id, r, earliest, interval)
    ensures Keeps(ys[j].loop, id, r, earliest, interval)
    decreases j
  {
    hide Enabled, Apply, Inv, Keeps;
    if i < j {
      KeepsStays(ys, actions, i, j - 1, id, r, earliest, interval);
      RunInv(ys, actions, j - 1);
      KeepsKept(ys[j - 1], actions[j - 1], id, r, earliest, interval);
    }
  }

  lemma StartedKeeps(ys: seq<System>, actions: seq<Action>, i: nat, r: Receiver, id: nat)
    requires IsRun(ys, actions) && Started(ys, actions, i, r, id)
    ensures var a := actions[i];
      && Keeps(ys[i + 1].loop, id, r, a.now + a.duration, if a.singleShot then 0 else a.duration)
      && Armed(ys[i + 1].loop, id, r, a.now + a.duration)
      && id > ys[i].loop.lastHandle
  {
    RunInv(ys, actions, i);
    RefusedExactly(ys, actions, i, r);
    var a := actions[i];
    var l, z := ys[i].loop, ys[i + 1].loop;
    assert z.timers[|l.timers|].id == id;
    hide Refused;
    forall t | t in z.timers && t.id == id
      ensures t == z.timers[|l.timers|]
    {
      var k :| 0 <= k < |z.timers| && z.timers[k] == t;
    }
  }

  /** A new handle calls its own receiver, and never before its time. */
  lemma NeverEarly(ys: seq<System>, actions: seq<Action>, i: nat, j: nat, r: Receiver, id: nat)
    requires IsRun(ys, actions) && Started(ys, actions, i, r, id)
    requires i < j < |actions| && Calls(ys[j], actions[j], id)
    ensures id > ys[i].loop.lastHandle
    ensures actions[j].now >= actions[i].now + actions[i].duration
    ensures ys[j + 1].phase == HandlingTimer(r)
  {
    StartedKeeps(ys, actions, i, r, id);
    var a := actions[i];
    KeepsStays(ys, actions, i + 1, j, id, r, a.now + a.duration, if a.singleShot then 0 else a.duration);
    RunInv(ys, actions, j);
    hide Inv, Enabled, Calls, Keeps, IsRun;
    CallsItsReceiver(ys[j], actions[j], id, r, a.now + a.duration, if a.singleShot then 0 else a.duration);
  }

  lemma CallsItsReceiver(y: System, a: Action, id: nat, r: Receiver, earliest: nat, interval: nat)
    requires Inv(y) && Enabled(y, a) && Calls(y, a, id) && Keeps(y.loop, id, r, earliest, interval)
    ensures a.now >= earliest && Apply(y, a).phase == HandlingTimer(r)
  {
    FiredTimers(y.loop, a.now);
    hide Loop.Fired, Loop.Fires, Rising, Within;
  }

  /** A single-shot timer, or one without a duration, calls at most once. */
  lemma SingleShotCallsOnce(ys: seq<System>, actions: seq<Action>, i: nat, j: nat, k: nat, r: Receiver, id: nat)
    requires IsRun(ys, actions) && Started(ys, actions, i, r, id)
    requires actions[i].singleShot || actions[i].duration == 0
    requires i < j < k < |actions| && Calls(ys[j], actions[j], id)
    ensures !Calls(ys[k], actions[k], id)
  {
    StartedKeeps(ys, actions, i, r, id);
    var a := actions[i];
    KeepsStays(ys, actions, i + 1, j, id, r, a.now + a.duration, 0);
    RunInv(ys, actions, j);
    RunInv(ys, actions, k);
    hide Inv, Enabled, Apply, Calls, Keeps, HandleGone;
    LastCall(ys[j], actions[j], id, r, a.now + a.duration);
    HandleStaysGone(ys, actions, j + 1, k, id);
    GoneNeverCalls(ys[k], actions[k], id);
  }

  lemma LastCall(y: System, a: Action, id: nat, r: Receiver, earliest: nat)
    requires Inv(y) && Enabled(y, a) && Calls(y, a, id) && Keeps(y.loop, id, r, earliest, 0)
    ensures HandleGone(Apply(y, a).loop, id)
  {
    FiredTimers(y.loop, a.now);
    FiredRises(y.loop, a.now);
    hide Loop.Fired, Loop.Fires, Rising, Within;
  }

  lemma GoneNeverCalls(y: System, a: Action, id: nat)
    requires Inv(y) && HandleGone(y.loop, id)
    ensures !Calls(y, a, id)
  {
    if a.Step? {
      FiredTimers(y.loop, a.now);
      hide Loop.Fired, Loop.Fires, Rising, Within;
    }
  }

  /** Nothing takes the handle away between two states: it does not fire, is not stopped,
      its receiver is not removed and the loop not cleared. */
  ghost predicate Undisturbed(ys: seq<System>, actions: seq<Action>, i: nat, k: nat, r: Receiver, id: nat)
    requires IsRun(ys, actions) && k < |ys|
  {
    forall j :: i <= j < k ==>
      && !Calls(ys[j], actions[j], id) && actions[j] != StopTimer(id) && actions[j] != Clear
      && !(actions[j].Remove? && actions[j].r == r)
  }

  lemma ArmedKept(y: System, a: Action, id: nat, r: Receiver, due: nat)
    requires Inv(y) && Enabled(y, a) && Armed(y.loop, id, r, due)
    requires !Calls(y, a, id) && a != StopTimer(id) && a != Clear && !(a.Remove? && a.r == r)
    ensures Armed(Apply(y, a).loop, id, r, due)
  {
    var t :| t in y.loop.timers && t.id == id && t.handler == r && t.nextTrigger == due;
    assert t in Apply(y, a).loop.timers by {
      match a
      case Remove(gone, _) => WithoutKeeps(y.loop.timers, gone, t);
      case Step(now) =>
        FiredTimers(y.loop, now);
        hide Loop.Fired, Loop.Fires, Inv, LoopInv;
      case StopTimer(other) =>
        StopTimerStops(y.loop, other);
        hide Loop.StopTimer, Inv, LoopInv;
      case _ =>
        hide Inv;
    }
  }

  lemma {:induction false} StaysArmed(ys: seq<System>, actions: seq<Action>, i: nat, k: nat,
                                      r: Receiver, id: nat, due: nat)
    requires IsRun(ys, actions) && i <= k < |ys| && Undisturbed(ys, actions, i, k, r, id)
    requires Armed(ys[i].loop, id, r, due)
    ensures Armed(ys[k].loop, id, r, due)
    decreases k
  {
    hide Enabled, Apply, Inv, Armed, Calls;
    if i < k {
      StaysArmed(ys, actions, i, k - 1, r, id, due);
      RunInv(ys, actions, k - 1);
      ArmedKept(ys[k - 1], actions[k - 1], id, r, due);
    }
  }

  /** A timer stays set for its first time until it fires or is taken away. */
  lemma DueAfterStart(ys: seq<System>, actions: seq<Action>, i: nat, k: nat, r: Receiver, id: nat)
    requires IsRun(ys, actions) && Started(ys, actions, i, r, id)
    requires i < k < |ys| && Undisturbed(ys, actions, i + 1, k, r, id)
    ensures Armed(ys[k].loop, id, r, actions[i].now + actions[i].duration)
  {
    StartedKeeps(ys, actions, i, r, id);
    StaysArmed(ys, actions, i + 1, k, r, id, actions[i].now + actions[i].duration);
  }

  /** A repeating timer that fired at t is set for t plus its duration until it fires again
      or is taken away. */
  lemma DueAgain(ys: seq<System>, actions: seq<Action>, i: nat, j: nat, k: nat, r: Receiver, id: nat)
    requires IsRun(ys, actions) && Started(ys, actions, i, r, id)
    requires !actions[i].singleShot && actions[i].duration > 0
    requires i < j < k < |ys| && Calls(ys[j], actions[j], id) && Undisturbed(ys, actions, j + 1, k, r, id)
    ensures Armed(ys[k].loop, id, r, actions[j].now + actions[i].duration)
  {
    StartedKeeps(ys, actions, i, r, id);
    var a := actions[i];
    KeepsStays(ys, actions, i + 1, j, id, r, a.now + a.duration, a.duration);
    RunInv(ys, actions, j);
    FiredTimers(ys[j].loop, actions[j].now);
    var t := ys[j].loop.Fires(actions[j].now).value;
    assert t.(nextTrigger := actions[j].now + a.duration) in ys[j + 1].loop.timers;
    StaysArmed(ys, actions, j + 1, k, r, id, actions[j].now + a.duration);
  }
}
