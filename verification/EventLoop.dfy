/** The event loop: securepath/event_system/event_loop.cpp. Times are counted from the
    clock's epoch, whose value 0 stands for "not set" as in the source. */
module EventLoop {
  import opened Options

  type Receiver = nat

  type Event = nat

  const UNSET := 0

  datatype Holder = Holder(event: Event, handler: Receiver)

  /** An interval of 0 is that of a single-shot timer. */
  datatype Timer = Timer(id: nat, nextTrigger: nat, interval: nat, handler: Receiver)

  /** What the mutex protects, with the receivers that have been disabled. */
  datatype Loop = Loop(
    events: seq<Holder>, timers: seq<Timer>, nextTrigger: nat, lastHandle: nat, quit: bool, disabled: set<Receiver>)
  {
    predicate Takes(r: Receiver) {
      !quit && r !in disabled
    }

    function Emit(r: Receiver, e: Event): Loop {
      if Takes(r) then this.(events := events + [Holder(e, r)]) else this
    }

    /** Does emit wake the loop? */
    predicate EmitNotifies(r: Receiver) {
      Takes(r) && events == []
    }

    function Remove(r: Receiver): Loop {
      this.(disabled := disabled + {r}, events := EventsWithout(events, r), timers := TimersWithout(timers, r))
    }

    function StartTimer(r: Receiver, now: nat, duration: nat, singleShot: bool): Loop {
      if Takes(r) then
        this.(lastHandle := lastHandle + 1,
              timers := timers + [Timer(lastHandle + 1, now + duration, if singleShot then 0 else duration, r)],
              nextTrigger := Earlier(nextTrigger, now + duration))
      else this
    }

    predicate StartTimerNotifies(r: Receiver, now: nat, duration: nat) {
      Takes(r) && events == [] && (nextTrigger == UNSET || now + duration < nextTrigger)
    }

    function StopTimer(id: nat): Loop {
      var i := IndexOf(timers, id);
      if i == |timers| then this else
        var left := timers[..i] + timers[i + 1..];
        this.(timers := left, nextTrigger := if left == [] then UNSET else nextTrigger)
    }

    /** Is it time to look at the timers? */
    predicate TimersDue(now: nat) {
      nextTrigger != UNSET && nextTrigger <= now
    }

    /** The timer to fire: the first one that is due. */
    function Fires(now: nat): Option<Timer> {
      var i := FirstDue(timers, now);
      if TimersDue(now) && i < |timers| then Some(timers[i]) else None
    }

    /** The timers after one has been picked to fire, or none found due. */
    function Fired(now: nat): Loop {
      if !TimersDue(now) then this else
        var i := FirstDue(timers, now);
        var left :=
          if i == |timers| then timers
          else if timers[i].interval != 0 then
            timers[i := timers[i].(nextTrigger := now + timers[i].interval)]
          else timers[..i] + timers[i + 1..];
        this.(timers := left, nextTrigger := Earliest(left))
    }

    function TakeEvent(): Loop
      requires events != []
    {
      this.(events := events[1..])
    }
  }

  function Earlier(next: nat, t: nat): nat {
    if next == UNSET || t < next then t else next
  }

  /** The least trigger of a list of timers, unset for none. */
  function Earliest(timers: seq<Timer>): nat
    decreases |timers|
  {
    if timers == [] then UNSET else Earlier(Earliest(timers[..|timers| - 1]), timers[|timers| - 1].nextTrigger)
  }

  function EventsWithout(s: seq<Holder>, r: Receiver): seq<Holder>
    decreases |s|
  {
    if s == [] then [] else (if s[0].handler == r then [] else [s[0]]) + EventsWithout(s[1..], r)
  }

  function TimersWithout(s: seq<Timer>, r: Receiver): seq<Timer>
    decreases |s|
  {
    if s == [] then [] else (if s[0].handler == r then [] else [s[0]]) + TimersWithout(s[1..], r)
  }

  function IndexOf(s: seq<Timer>, id: nat): (i: nat)
    ensures i <= |s| && (i < |s| ==> s[i].id == id)
    ensures forall j :: 0 <= j < i ==> s[j].id != id
    decreases |s|
  {
    if s == [] then 0 else if s[0].id == id then 0 else 1 + IndexOf(s[1..], id)
  }

  function FirstDue(s: seq<Timer>, now: nat): (i: nat)
    ensures i <= |s| && (i < |s| ==> s[i].nextTrigger <= now)
    ensures forall j :: 0 <= j < i ==> now < s[j].nextTrigger
    decreases |s|
  {
    if s == [] then 0 else if s[0].nextTrigger <= now then 0 else 1 + FirstDue(s[1..], now)
  }

  lemma EmptyEarliest()
    ensures Earliest([]) == UNSET
  {
  }

  /** Earliest is the least, in any order of the timers. */
  lemma {:induction false} EarliestIsLeast(timers: seq<Timer>)
    requires forall i :: 0 <= i < |timers| ==> timers[i].nextTrigger != UNSET
    ensures timers == [] <==> Earliest(timers) == UNSET
    ensures forall i :: 0 <= i < |timers| ==> Earliest(timers) <= timers[i].nextTrigger
    ensures timers != [] ==> exists i :: 0 <= i < |timers| && timers[i].nextTrigger == Earliest(timers)
    decreases |timers|
  {
    if timers != [] {
      var front := timers[..|timers| - 1];
      EarliestIsLeast(front);
      if front != [] {
        var k :| 0 <= k < |front| && front[k].nextTrigger == Earliest(front);
        assert timers[k].nextTrigger == Earliest(front);
      }
      assert timers[|timers| - 1].nextTrigger != UNSET;
    }
  }

  class BasicEventLoop {
    var events: seq<Holder>
    var timers: seq<Timer>
    var nextTrigger: nat
    var lastTimerHandle: nat
    var quit: bool
    var disabled: set<Receiver>
    var activeHandler: Option<Receiver>

    ghost function View(): Loop
      reads this
    {
      Loop(events, timers, nextTrigger, lastTimerHandle, quit, disabled)
    }

    ghost predicate TimersSet()
      reads this
    {
      forall i :: 0 <= i < |timers| ==> timers[i].nextTrigger != UNSET
    }

    constructor ()
      ensures View() == Loop([], [], UNSET, 0, false, {}) && activeHandler == None
    {
      events, timers, nextTrigger, lastTimerHandle, quit, disabled := [], [], UNSET, 0, false, {};
      activeHandler := None;
    }

    method Emit(r: Receiver, e: Event) returns (notify: bool)
      modifies this`events
      ensures View() == old(View()).Emit(r, e)
      ensures notify == old(View()).EmitNotifies(r)
    {
      notify := false;
      if !quit && r !in disabled {
        notify := events == [];
        events := events + [Holder(e, r)];
      }
    }

    /** remove_receiver up to its wait. */
    method RemoveReceiver(r: Receiver)
      modifies this`events, this`timers, this`disabled
      ensures View() == old(View()).Remove(r)
    {
      disabled := disabled + {r};
      events := EventsWithout(events, r);
      timers := TimersWithout(timers, r);
    }

    method StartTimer(r: Receiver, now: nat, duration: nat, singleShot: bool) returns (id: nat, notify: bool)
      modifies this`timers, this`nextTrigger, this`lastTimerHandle
      ensures View() == old(View()).StartTimer(r, now, duration, singleShot)
      ensures notify == old(View()).StartTimerNotifies(r, now, duration)
      ensures id == if old(View()).Takes(r) then lastTimerHandle else 0
    {
      id, notify := 0, false;
      if !quit && r !in disabled {
        lastTimerHandle := lastTimerHandle + 1;
        id := lastTimerHandle;
        var trigger := now + duration;
        timers := timers + [Timer(id, trigger, if singleShot then 0 else duration, r)];
        notify := events == [] && (nextTrigger == UNSET || trigger < nextTrigger);
        UpdateNextTrigger(trigger);
      }
    }

    method StopTimer(id: nat)
      modifies this`timers, this`nextTrigger
      ensures View() == old(View()).StopTimer(id)
    {
      var i := 0;
      while i < |timers| && timers[i].id != id
        invariant i <= |timers|
        invariant forall j :: 0 <= j < i ==> timers[j].id != id
      {
        i := i + 1;
      }
      if i < |timers| {
        timers := timers[..i] + timers[i + 1..];
        if timers == [] {
          nextTrigger := UNSET;
        }
      }
    }

    method UpdateNextTrigger(t: nat)
      modifies this`nextTrigger
      ensures nextTrigger == Earlier(old(nextTrigger), t)
    {
      if nextTrigger == UNSET || t < nextTrigger {
        nextTrigger := t;
      }
    }

    /** process_timers up to the call of the handler. */
    method ProcessTimers(now: nat) returns (fired: Option<Timer>)
      requires TimersSet() && now > 0
      modifies this`timers, this`nextTrigger, this`activeHandler
      ensures TimersSet()
      ensures View() == old(View()).Fired(now) && fired == old(View()).Fires(now)
      ensures activeHandler == if fired.Some? then Some(fired.value.handler) else old(activeHandler)
    {
      hide Earliest;
      if nextTrigger == UNSET || now < nextTrigger {
        return None;
      }
      var it := PassNotDue(now);
      assert timers[..|timers|] == timers;
      if it == |timers| {
        return None;
      }
      PassOthers(it);
      fired := Some(timers[it]);
      Rearm(it, now);
      activeHandler := Some(fired.value.handler);
    }

    /** Its first loop: timers that are not due, up to the first one that is. */
    method PassNotDue(now: nat) returns (it: nat)
      modifies this`nextTrigger
      ensures it <= |timers| && (it < |timers| ==> timers[it].nextTrigger <= now)
      ensures forall j :: 0 <= j < it ==> now < timers[j].nextTrigger
      ensures nextTrigger == Earliest(timers[..it])
    {
      hide Earliest;
      EmptyEarliest();
      nextTrigger := UNSET;
      it := 0;
      while it < |timers| && now < timers[it].nextTrigger
        invariant it <= |timers|
        invariant forall j :: 0 <= j < it ==> now < timers[j].nextTrigger
        invariant nextTrigger == Earliest(timers[..it])
      {
        assert timers[..it + 1] == timers[..it] + [timers[it]];
        EarliestSnoc(timers[..it], timers[it]);
        UpdateNextTrigger(timers[it].nextTrigger);
        it := it + 1;
      }
    }

    /** Its second loop: the timers after that one. */
    method PassOthers(it: nat)
      requires it < |timers| && nextTrigger == Earliest(timers[..it])
      modifies this`nextTrigger
      ensures nextTrigger == Earliest(timers[..it] + timers[it + 1..])
    {
      hide Earliest;
      assert timers[..it] + timers[it + 1..it + 1] == timers[..it];
      for itc := it + 1 to |timers|
        invariant nextTrigger == Earliest(timers[..it] + timers[it + 1..itc])
      {
        assert timers[..it] + timers[it + 1..itc + 1] == timers[..it] + timers[it + 1..itc] + [timers[itc]];
        EarliestSnoc(timers[..it] + timers[it + 1..itc], timers[itc]);
        UpdateNextTrigger(timers[itc].nextTrigger);
      }
      assert timers[it + 1..|timers|] == timers[it + 1..];
    }

    /** The timer that fires starts over, or goes if it is a single-shot one. */
    method Rearm(it: nat, now: nat)
      requires it < |timers| && TimersSet() && now > 0
      requires nextTrigger == Earliest(timers[..it] + timers[it + 1..])
      modifies this`timers, this`nextTrigger
      ensures TimersSet()
      ensures timers == if old(timers)[it].interval != 0
        then old(timers)[it := old(timers)[it].(nextTrigger := now + old(timers)[it].interval)]
        else old(timers)[..it] + old(timers)[it + 1..]
      ensures nextTrigger == Earliest(timers)
    {
      hide Earliest;
      if timers[it].interval != 0 {
        var again := timers[it].(nextTrigger := now + timers[it].interval);
        MovedTimer(timers[..it], again, timers[it + 1..]);
        assert timers[it := again] == timers[..it] + [again] + timers[it + 1..];
        timers := timers[it := again];
        UpdateNextTrigger(again.nextTrigger);
      } else {
        timers := timers[..it] + timers[it + 1..];
      }
    }

    /** The rest of process_single_event up to the call of the handler. */
    method TakeEvent() returns (taken: Option<Holder>)
      modifies this`events, this`activeHandler
      ensures old(events) == [] ==> taken == None && View() == old(View()) && activeHandler == old(activeHandler)
      ensures old(events) != [] ==>
        View() == old(View()).TakeEvent() && taken == Some(old(events)[0])
        && activeHandler == Some(old(events)[0].handler)
    {
      if events == [] {
        return None;
      }
      taken := Some(events[0]);
      events := events[1..];
      activeHandler := Some(taken.value.handler);
    }

    method HandlerDone()
      modifies this`activeHandler
      ensures activeHandler == None
    {
      activeHandler := None;
    }
  }

  lemma EarliestSnoc(s: seq<Timer>, t: Timer)
    ensures Earliest(s + [t]) == Earlier(Earliest(s), t.nextTrigger)
  {
    assert (s + [t])[..|s|] == s;
  }

  /** A timer may be taken into account last, wherever it stands. */
  lemma {:induction false} MovedTimer(a: seq<Timer>, t: Timer, b: seq<Timer>)
    requires t.nextTrigger != UNSET
    requires forall i :: 0 <= i < |b| ==> b[i].nextTrigger != UNSET
    ensures Earliest(a + [t] + b) == Earlier(Earliest(a + b), t.nextTrigger)
    decreases |b|
  {
    hide Earliest;
    if b == [] {
      assert a + [t] + b == a + [t] && a + b == a;
      EarliestSnoc(a, t);
    } else {
      var front, last := b[..|b| - 1], b[|b| - 1];
      MovedTimer(a, t, front);
      assert a + [t] + b == a + [t] + front + [last];
      assert a + b == a + front + [last];
      EarliestSnoc(a + [t] + front, last);
      EarliestSnoc(a + front, last);
    }
  }
}
