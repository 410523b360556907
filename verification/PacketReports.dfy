/** What the callers of a packet storage are told, over whole runs: that a packet is stored
    as it was handed in, and that each sender is told unless storing failed. */
module PacketReports {
  import opened Options
  import opened PacketStorage
  import opened PacketProtocol

  // ---- packets are what was handed in ----

  /** Step i hands in the packet that gets this ack. */
  predicate HandsIn(y: System, a: Action, p: Packet) {
    && a.Insert? && p.ack == y.s.sequence + 1
    && p.receiver == a.receiver && p.payload == a.payload && p.senderAck == a.senderAck && p.sender == a.sender
  }

  lemma InsertedAfter(y: System, a: Action, p: Packet)
    requires Contents(y) && Enabled(y, a)
    ensures var was, now := y.log.inserted, Apply(y, a).log.inserted;
      p.ack in now && now[p.ack] == p <==> (p.ack in was && was[p.ack] == p) || HandsIn(y, a, p)
  {
    assert y.s.sequence + 1 !in y.log.inserted;
  }

  lemma HasContents(y: System)
    requires Inv(y)
    ensures Contents(y) && QueueAscending(y) && NoticesOnce(y) && DroppedGone(y) && Phases(y) && Flagged(y)
  {
  }

  /** A run has a packet on record exactly if one of its steps handed it in, with receiver,
      payload and sender as given and the next ack. */
  lemma {:induction false} InsertedExactly(ys: seq<System>, actions: seq<Action>, n: nat, p: Packet)
    requires IsRun(ys, actions) && Init(ys[0]) && n <= |actions|
    ensures p.ack in ys[n].log.inserted && ys[n].log.inserted[p.ack] == p <==>
      exists i :: 0 <= i < n && HandsIn(ys[i], actions[i], p)
    decreases n
  {
    hide Inv, Enabled, Apply, HandsIn, Contents;
    if n > 0 {
      InsertedExactly(ys, actions, n - 1, p);
      RunInv(ys, actions, n - 1);
      HasContents(ys[n - 1]);
      InsertedAfter(ys[n - 1], actions[n - 1], p);
    }
  }

  // ---- failures ----

  /** The database refuses to store this packet. */
  predicate FailsToStore(y: System, a: Action, ack: nat)
    requires Enabled(y, a)
  {
    match a
    case Write(healthy) => !healthy && y.worker.packet.ack == ack
    case PurgePacket(healthy) => !healthy && y.s.queue[y.closer.next].ack == ack && ack !in y.s.flags
    case _ => false
  }

  lemma FailedAfter(y: System, a: Action, ack: nat)
    requires Enabled(y, a)
    requires a.Write? ==> y.s.CanWrite(y.worker.packet, a.healthy) == a.healthy
    requires a.PurgePacket? ==> y.s.CanWrite(y.s.queue[y.closer.next], a.healthy) == a.healthy
    ensures ack in Apply(y, a).log.failed <==> ack in y.log.failed || FailsToStore(y, a, ack)
  {
  }

  /** A packet counts as failed exactly if some step of the run failed to store it. */
  lemma {:induction false} FailedExactly(ys: seq<System>, actions: seq<Action>, n: nat, ack: nat)
    requires IsRun(ys, actions) && Init(ys[0]) && n <= |actions|
    ensures ack in ys[n].log.failed <==> exists i :: 0 <= i < n && FailsToStore(ys[i], actions[i], ack)
    decreases n
  {
    hide Inv, Enabled, Apply, FailsToStore, Init, Reachable, Storage.CanWrite;
    if n > 0 {
      FailedExactly(ys, actions, n - 1, ack);
      RunIsReachable(ys, actions, n - 1);
      Collides(ys[n - 1], actions[n - 1]);
      FailedAfter(ys[n - 1], actions[n - 1], ack);
    } else {
      NothingFailed(ys[0]);
    }
  }

  lemma NothingFailed(y: System)
    requires Init(y)
    ensures y.log.failed == {}
  {
  }

  lemma Collides(y: System, a: Action)
    requires Reachable(y) && Enabled(y, a)
    ensures a.Write? ==> y.s.CanWrite(y.worker.packet, a.healthy) == a.healthy
    ensures a.PurgePacket? ==> y.s.CanWrite(y.s.queue[y.closer.next], a.healthy) == a.healthy
  {
    if a.Write? || a.PurgePacket? {
      WritesNeverCollide(y, a.healthy);
    }
  }

  // ---- notices ----

  predicate Told(y: System, ack: nat) {
    exists k :: 0 <= k < |y.log.notified| && y.log.notified[k].ack == ack
  }

  /** Still queued, or in the database thread's hand before its sender is told. */
  predicate Waiting(y: System, ack: nat) {
    || Queued(y.s, ack)
    || ((y.worker.Popped? || y.worker.Writing? || y.worker.Notifying?) && y.worker.packet.ack == ack)
  }

  /** Notices are of packets on record, and each packet is told of, waiting, failed or
      dropped, unless a purge has been through the queue; one told of is none of the others. */
  ghost predicate Reported(y: System) {
    && (forall k :: 0 <= k < |y.log.notified| ==>
        y.log.notified[k].ack in y.log.inserted && y.log.inserted[y.log.notified[k].ack] == y.log.notified[k])
    && (forall a: nat :: Told(y, a) ==> a !in y.log.failed && a !in y.log.droppedPackets)
    && (forall a: nat :: Waiting(y, a) && !y.closer.FlushingPackets? ==> a !in y.log.failed)
    && (y.log.droppedPackets != {} ==> y.worker.Exiting? || y.worker.Exited?)
    && (!y.log.flushed ==> forall a :: a in y.log.inserted ==>
         Told(y, a) || Waiting(y, a) || a in y.log.failed || a in y.log.droppedPackets)
  }

  lemma ToldNotWaiting(y: System, ack: nat)
    requires NoticesOnce(y) && Told(y, ack)
    ensures !Waiting(y, ack)
  {
  }

  lemma ToldAfter(y: System, a: Action, ack: nat)
    requires Enabled(y, a)
    ensures Told(Apply(y, a), ack) <==> Told(y, ack) || (a.Notify? && y.worker.packet.ack == ack)
    ensures a.Notify? ==> Apply(y, a).log.notified == y.log.notified + [y.worker.packet]
    ensures !a.Notify? ==> Apply(y, a).log.notified == y.log.notified
  {
    var z := Apply(y, a);
    if a.Notify? {
      assert z.log.notified[|y.log.notified|] == y.worker.packet;
    }
    if Told(y, ack) {
      var k :| 0 <= k < |y.log.notified| && y.log.notified[k].ack == ack;
      assert z.log.notified[k].ack == ack;
    }
  }

  /** Who stops waiting has been told, has failed, was dropped or purged. */
  lemma WaitingStays(y: System, a: Action, ack: nat)
    requires Enabled(y, a) && Waiting(y, ack) && !a.ClearPackets? && !(a.Notify? && y.worker.packet.ack == ack)
    requires !DropsPacketOf(y, a, ack)
    requires a.Write? && y.worker.packet.ack == ack ==> y.s.CanWrite(y.worker.packet, a.healthy)
    ensures Waiting(Apply(y, a), ack)
  {
    if Queued(y.s, ack) {
      var i :| 0 <= i < |y.s.queue| && y.s.queue[i].ack == ack;
      var z := Apply(y, a);
      if a.Next? && i > 0 {
        assert z.s.queue[i - 1].ack == ack;
      } else if !a.Next? {
        assert z.s.queue[i].ack == ack;
      }
    }
  }

  /** Only a packet just handed in starts to wait. */
  lemma WaitingBefore(y: System, a: Action, ack: nat)
    requires Enabled(y, a) && Waiting(Apply(y, a), ack)
    ensures Waiting(y, ack) || (a.Insert? && ack == y.s.sequence + 1)
  {
    var z := Apply(y, a);
    if Queued(z.s, ack) {
      var i :| 0 <= i < |z.s.queue| && z.s.queue[i].ack == ack;
      if a.Next? {
        assert y.s.queue[i + 1].ack == ack;
      } else if i < |y.s.queue| {
        assert y.s.queue[i].ack == ack;
      }
    } else if a.Next? {
      assert y.s.queue[0].ack == ack;
    }
  }

  lemma InsertedKeys(y: System, a: Action)
    requires Enabled(y, a)
    ensures Apply(y, a).log.inserted.Keys == y.log.inserted.Keys + (if a.Insert? then {y.s.sequence + 1} else {})
    ensures a.Insert? ==> Waiting(Apply(y, a), y.s.sequence + 1)
    ensures Apply(y, a).log.flushed == (y.log.flushed || a.ClearPackets?)
  {
    if a.Insert? {
      assert Apply(y, a).s.queue[|y.s.queue|].ack == y.s.sequence + 1;
    }
  }

  lemma FailingWaits(y: System, a: Action, ack: nat)
    requires Enabled(y, a) && (FailsToStore(y, a, ack) || DropsPacketOf(y, a, ack))
    ensures Waiting(y, ack)
  {
  }

  /** What a step does to what is recorded of one packet. */
  lemma RecordsAfter(y: System, a: Action, ack: nat)
    requires Inv(y) && Reachable(y) && Enabled(y, a)
    ensures ack in Apply(y, a).log.failed <==> ack in y.log.failed || FailsToStore(y, a, ack)
    ensures ack in Apply(y, a).log.droppedPackets <==> ack in y.log.droppedPackets || DropsPacketOf(y, a, ack)
    ensures a.Write? ==> y.s.CanWrite(y.worker.packet, a.healthy) == a.healthy
  {
    hide Apply, FailsToStore, DropsPacketOf, Inv, Reachable, Enabled, Storage.CanWrite;
    Collides(y, a);
    FailedAfter(y, a, ack);
    InvParts(y);
    LossAfter(y, a, ack);
  }

  lemma NoticesStay(y: System, a: Action)
    requires Inv(y) && Reported(y) && Enabled(y, a)
    ensures var z := Apply(y, a);
      forall k :: 0 <= k < |z.log.notified| ==>
        z.log.notified[k].ack in z.log.inserted && z.log.inserted[z.log.notified[k].ack] == z.log.notified[k]
  {
    StepKeeps(y, a);
    ToldAfter(y, a, 0);
    assert a.Notify? ==> Held(y.worker) == Some(y.worker.packet);
    HasContents(y);
    hide Inv, Apply;
  }

  lemma ToldStaysClean(y: System, a: Action, ack: nat)
    requires Inv(y) && Reachable(y) && Reported(y) && Enabled(y, a) && Told(Apply(y, a), ack)
    ensures ack !in Apply(y, a).log.failed && ack !in Apply(y, a).log.droppedPackets
  {
    RecordsAfter(y, a, ack);
    ToldAfter(y, a, ack);
    HasContents(y);
    if Told(y, ack) {
      ToldNotWaiting(y, ack);
      if FailsToStore(y, a, ack) || DropsPacketOf(y, a, ack) {
        FailingWaits(y, a, ack);
      }
    } else {
      NotifyingIsClean(y);
    }
    hide Inv, Apply, Reported, Reachable;
  }

  lemma NotifyingIsClean(y: System)
    requires Inv(y) && Reported(y)
    ensures y.worker.Notifying? ==> y.worker.packet.ack !in y.log.failed && y.worker.packet.ack !in y.log.droppedPackets
  {
  }

  lemma WaitingStaysClean(y: System, a: Action, ack: nat)
    requires Inv(y) && Reachable(y) && Reported(y) && Enabled(y, a)
    requires Waiting(Apply(y, a), ack) && !Apply(y, a).closer.FlushingPackets?
    ensures ack !in Apply(y, a).log.failed
  {
    RecordsAfter(y, a, ack);
    WaitingBefore(y, a, ack);
    if a.ClearPackets? {
      NothingWaits(y, ack);
    } else if a.Insert? {
      HasKnownAcks(y);
    } else if FailsToStore(y, a, ack) {
      FailedIsGone(y, a, ack);
    }
    StillFlushing(y, a);
    hide Inv, Apply, Reachable;
  }

  lemma NothingWaits(y: System, ack: nat)
    requires Inv(y) && Enabled(y, ClearPackets)
    ensures !Waiting(Apply(y, ClearPackets), ack)
  {
  }

  lemma HasKnownAcks(y: System)
    requires Inv(y)
    ensures y.s.sequence + 1 !in y.log.failed
  {
  }

  lemma StillFlushing(y: System, a: Action)
    requires Enabled(y, a)
    ensures y.closer.FlushingPackets? && !a.ClearPackets? ==> Apply(y, a).closer.FlushingPackets?
    ensures a.PurgePacket? ==> Apply(y, a).closer.FlushingPackets?
  {
  }

  lemma FailedIsGone(y: System, a: Action, ack: nat)
    requires Inv(y) && Enabled(y, a) && a.Write? && FailsToStore(y, a, ack)
    ensures !Waiting(Apply(y, a), ack)
  {
    HasContents(y);
    hide Inv;
  }

  lemma DroppedStaysLate(y: System, a: Action)
    requires Inv(y) && Reported(y) && Enabled(y, a)
    ensures var z := Apply(y, a); z.log.droppedPackets != {} ==> z.worker.Exiting? || z.worker.Exited?
  {
    HasContents(y);
    hide Inv;
  }

  lemma AllAccounted(y: System, a: Action, ack: nat)
    requires Inv(y) && Reachable(y) && Reported(y) && Enabled(y, a)
    requires !Apply(y, a).log.flushed && ack in Apply(y, a).log.inserted
    ensures var z := Apply(y, a);
      Told(z, ack) || Waiting(z, ack) || ack in z.log.failed || ack in z.log.droppedPackets
  {
    RecordsAfter(y, a, ack);
    ToldAfter(y, a, ack);
    InsertedKeys(y, a);
    if ack in y.log.inserted && Waiting(y, ack) && !(a.Notify? && y.worker.packet.ack == ack)
      && !DropsPacketOf(y, a, ack) && !FailsToStore(y, a, ack) {
      WaitingStays(y, a, ack);
    }
    hide Inv, Apply, Reachable, Waiting, Told;
  }

  lemma ReportedStep(y: System, a: Action)
    requires Inv(y) && Reachable(y) && Reported(y) && Enabled(y, a)
    ensures Reported(Apply(y, a))
  {
    var z := Apply(y, a);
    NoticesStay(y, a);
    DroppedStaysLate(y, a);
    forall ack: nat | Told(z, ack)
      ensures ack !in z.log.failed && ack !in z.log.droppedPackets
    {
      ToldStaysClean(y, a, ack);
    }
    forall ack: nat | Waiting(z, ack) && !z.closer.FlushingPackets?
      ensures ack !in z.log.failed
    {
      WaitingStaysClean(y, a, ack);
    }
    forall ack | !z.log.flushed && ack in z.log.inserted
      ensures Told(z, ack) || Waiting(z, ack) || ack in z.log.failed || ack in z.log.droppedPackets
    {
      AllAccounted(y, a, ack);
    }
    hide Inv, Apply, Told, Waiting, Reachable;
  }

  lemma NothingReported(y: System)
    requires Init(y)
    ensures Reported(y)
  {
  }

  lemma {:induction false} AlwaysReported(ys: seq<System>, actions: seq<Action>, n: nat)
    requires IsRun(ys, actions) && Init(ys[0]) && n <= |actions|
    ensures Reported(ys[n])
    decreases n
  {
    hide Inv, Enabled, Apply, Reported, Init, Reachable;
    if n == 0 {
      NothingReported(ys[0]);
    } else {
      AlwaysReported(ys, actions, n - 1);
      RunInv(ys, actions, n - 1);
      RunIsReachable(ys, actions, n - 1);
      ReportedStep(ys[n - 1], actions[n - 1]);
    }
  }

  /** As long as no purge has been through the queue, the sender of a packet handed in has
      been told of it exactly if it waits no more, and was neither dropped by the last call
      of next_packet nor refused by the database. */
  lemma ToldExactly(ys: seq<System>, actions: seq<Action>, n: nat, ack: nat)
    requires IsRun(ys, actions) && Init(ys[0]) && n <= |actions|
    requires !ys[n].log.flushed && ack in ys[n].log.inserted
    ensures ys[n].log.inserted[ack] in ys[n].log.notified <==>
      && !Waiting(ys[n], ack)
      && !(exists i :: 0 <= i < n && FailsToStore(ys[i], actions[i], ack))
      && !(exists i :: 0 <= i < n && DropsPacketOf(ys[i], actions[i], ack))
  {
    hide Enabled, Apply, FailsToStore, DropsPacketOf, Init;
    AlwaysReported(ys, actions, n);
    FailedExactly(ys, actions, n, ack);
    LossExactly(ys, actions, n, ack);
    RunInv(ys, actions, n);
    HasContents(ys[n]);
    hide Inv;
    if Told(ys[n], ack) {
      ToldNotWaiting(ys[n], ack);
    }
  }

  // ---- acks ----

  /** A remove() that was begun is under way until the packet is acked. */
  lemma {:induction false} RemoveIsCarriedOut(ys: seq<System>, actions: seq<Action>, i: nat, n: nat)
    requires IsRun(ys, actions) && i < n <= |actions| && actions[i].BeginRemove?
    ensures var (t, ack) := (actions[i].thread, actions[i].handle.ack);
      ack in ys[n].log.acked || (t in ys[n].ackers && ys[n].ackers[t].ack == ack)
    decreases n
  {
    hide Enabled, Apply;
    if i + 1 < n {
      RemoveIsCarriedOut(ys, actions, i, n - 1);
      AckerStep(ys[n - 1], actions[n - 1], actions[i].thread);
    } else {
      BegunRemove(ys[i], actions[i]);
    }
  }

  lemma BegunRemove(y: System, a: Action)
    requires Enabled(y, a) && a.BeginRemove?
    ensures a.thread in Apply(y, a).ackers && Apply(y, a).ackers[a.thread].ack == a.handle.ack
  {
  }

  lemma AckerStep(y: System, a: Action, t: nat)
    requires Enabled(y, a)
    ensures var z := Apply(y, a);
      && y.log.acked <= z.log.acked
      && (t in y.ackers ==> y.ackers[t].ack in z.log.acked || (t in z.ackers && z.ackers[t].ack == y.ackers[t].ack))
  {
  }

  ghost predicate Asked(actions: seq<Action>, n: nat, ack: nat)
    requires n <= |actions|
  {
    exists i :: 0 <= i < n && actions[i].BeginRemove? && actions[i].handle.ack == ack
  }

  /** And nothing is acked that no remove() asked for. */
  lemma {:induction false} AckedWasAsked(ys: seq<System>, actions: seq<Action>, n: nat, ack: nat)
    requires IsRun(ys, actions) && Init(ys[0]) && n <= |actions|
    requires ack in ys[n].log.acked || exists t :: t in ys[n].ackers && ys[n].ackers[t].ack == ack
    ensures Asked(actions, n, ack)
    decreases n
  {
    hide Enabled, Apply;
    if n > 0 {
      AckedBefore(ys[n - 1], actions[n - 1], ack);
      var y, a := ys[n - 1], actions[n - 1];
      if ack in y.log.acked || exists t :: t in y.ackers && y.ackers[t].ack == ack {
        AckedWasAsked(ys, actions, n - 1, ack);
      }
    }
  }

  lemma AckedBefore(y: System, a: Action, ack: nat)
    requires Enabled(y, a)
    requires ack in Apply(y, a).log.acked || exists t :: t in Apply(y, a).ackers && Apply(y, a).ackers[t].ack == ack
    ensures ack in y.log.acked || (exists t :: t in y.ackers && y.ackers[t].ack == ack)
      || (a.BeginRemove? && a.handle.ack == ack)
  {
    if ack !in Apply(y, a).log.acked {
      var t :| t in Apply(y, a).ackers && Apply(y, a).ackers[t].ack == ack;
      assert t in y.ackers || a.BeginRemove?;
    }
  }
}
