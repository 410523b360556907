/** All threads of packet_storage.cpp together: any number of threads that insert, ack and
    read, the database thread, and the thread that closes the storage. Every critical
    section, atomic access and database statement is one step, and steps of different
    threads come in any order. */
module PacketProtocol {
  import opened Options
  import opened PacketStorage

  /** Where the database thread is, with the packet it holds and the removal to do. */
  datatype Worker =
    | Idle
    | Popped(packet: Packet, removal: nat)
    | Writing(packet: Packet, removal: nat)
    | Notifying(packet: Packet, removal: nat)
    | Removing(held: Option<Packet>, removal: nat)
    | Exiting(held: Option<Packet>)
    | Exited

  /** Where close() is. */
  datatype Closer =
    | Open
    | FlagSet
    | FlushingPackets(next: nat, end: nat)
    | FlushingRemovals(next: nat, end: nat)
    | Closed

  /** A thread inside remove(): it has got hold of the packet, or it is about to queue the removal. */
  datatype Acker = Locked(ack: nat) | Pushing(ack: nat)

  /** What has happened so far. `start` is the sequence number the storage began with. */
  datatype Log = Log(
    start: nat,
    inserted: map<nat, Packet>,
    handles: set<Handle>,
    acked: set<nat>,
    failed: set<nat>,
    notified: seq<Packet>,
    droppedPackets: set<nat>,
    lostRemovals: set<nat>,
    flushed: bool)

  datatype System = System(s: Storage, worker: Worker, closer: Closer, ackers: map<nat, Acker>, log: Log)

  datatype Action =
    | Insert(receiver: KeyId, payload: Payload, senderAck: nat, sender: KeyId)
    | ReadRow(ack: nat)
    | BeginRemove(thread: nat, handle: Handle, locked: bool)
    | TestAndSet(thread: nat)
    | Push(thread: nat)
    | Next
    | Decide
    | Write(healthy: bool)
    | Notify
    | Delete(healthy: bool)
    | Release
    | SetClose
    | Join
    | PurgePacket(healthy: bool)
    | ClearPackets
    | PurgeRemoval(healthy: bool)
    | ClearRemovals

  function Held(w: Worker): Option<Packet> {
    match w
    case Idle => None
    case Popped(p, _) => Some(p)
    case Writing(p, _) => Some(p)
    case Notifying(p, _) => Some(p)
    case Removing(h, _) => h
    case Exiting(h) => h
    case Exited => None
  }

  /** The packet taken from the queue that is not yet stored or let go. */
  function InHand(w: Worker): Option<Packet> {
    match w
    case Popped(p, _) => Some(p)
    case Writing(p, _) => Some(p)
    case _ => None
  }

  function Removal(w: Worker): nat {
    match w
    case Popped(_, r) => r
    case Writing(_, r) => r
    case Notifying(_, r) => r
    case Removing(_, r) => r
    case _ => 0
  }

  /** Queued packets before this position have been purged. */
  function PurgedCount(c: Closer): nat {
    match c
    case FlushingPackets(next, _) => next
    case _ => 0
  }

  /** Queued removals before this position have been carried out. */
  function RemovedCount(c: Closer): nat {
    match c
    case FlushingRemovals(next, _) => next
    case _ => 0
  }

  predicate Queued(s: Storage, ack: nat) {
    exists i :: 0 <= i < |s.queue| && s.queue[i].ack == ack
  }

  /** Does a weak pointer to this packet surely still lead to it? */
  predicate Alive(y: System, ack: nat) {
    Queued(y.s, ack) || (Held(y.worker).Some? && Held(y.worker).value.ack == ack)
  }

  predicate Enabled(y: System, a: Action) {
    match a
    case Insert(_, _, _, _) => true
    case ReadRow(ack) => ack in y.s.db
    case BeginRemove(t, h, locked) =>
      && t !in y.ackers && h in y.log.handles
      && (!h.weak ==> !locked)
      && (h.weak && Alive(y, h.ack) ==> locked)
    case TestAndSet(t) => t in y.ackers && y.ackers[t].Locked?
    case Push(t) => t in y.ackers && y.ackers[t].Pushing?
    case Next => y.worker.Idle? && (y.s.close || y.s.queue != [] || y.s.removeQueue != [])
    case Decide => y.worker.Popped?
    case Write(_) => y.worker.Writing?
    case Notify => y.worker.Notifying?
    case Delete(_) => y.worker.Removing? && y.worker.removal != 0
    case Release => (y.worker.Removing? && y.worker.removal == 0) || y.worker.Exiting?
    case SetClose => y.closer.Open? || y.closer.Closed?
    case Join => y.closer.FlagSet? && y.worker.Exited?
    case PurgePacket(_) => y.closer.FlushingPackets? && y.closer.next < y.closer.end <= |y.s.queue|
    case ClearPackets => y.closer.FlushingPackets? && y.closer.next == y.closer.end <= |y.s.queue|
    case PurgeRemoval(_) =>
      y.closer.FlushingRemovals? && y.closer.next < y.closer.end <= |y.s.removeQueue|
    case ClearRemovals =>
      y.closer.FlushingRemovals? && y.closer.next == y.closer.end <= |y.s.removeQueue|
  }

  function AcksOf(p: Option<Packet>): set<nat> {
    if p.Some? then {p.value.ack} else {}
  }

  function NewPacket(y: System, a: Action): Packet
    requires a.Insert?
  {
    Packet(a.receiver, a.payload, y.s.sequence + 1, a.senderAck, a.sender)
  }

  function DoInsert(y: System, p: Packet): System {
    y.(s := y.s.Insert(p),
       log := y.log.(inserted := y.log.inserted[p.ack := p],
                     handles := y.log.handles + {Handle(p.ack, true)}))
  }

  /** The receiver's ack is done once the flag was found clear, or the removal queued. */
  function DoTestAndSet(y: System, t: nat): System
    requires t in y.ackers
  {
    var ack := y.ackers[t].ack;
    var z := y.(s := y.s.TestAndSet(ack));
    if ack in y.s.flags then z.(ackers := y.ackers[t := Pushing(ack)])
    else z.(ackers := y.ackers - {t}, log := y.log.(acked := y.log.acked + {ack}))
  }

  function DoPush(y: System, t: nat): System
    requires t in y.ackers
  {
    var ack := y.ackers[t].ack;
    y.(s := y.s.PushRemoval(ack), ackers := y.ackers - {t}, log := y.log.(acked := y.log.acked + {ack}))
  }

  /** next_packet. With close set the loop ends, and what was just taken is dropped. */
  function DoNext(y: System): System {
    var p, r := y.s.NextPacket(), y.s.NextRemoval();
    var z := y.(s := y.s.Taken());
    if y.s.close then
      z.(worker := Exiting(p),
         log := y.log.(droppedPackets := y.log.droppedPackets + AcksOf(p),
                       lostRemovals := y.log.lostRemovals + (if r == 0 then {} else {r})))
    else
      z.(worker := if p.Some? then Popped(p.value, r) else Removing(None, r))
  }

  function DoDecide(y: System): System
    requires y.worker.Popped?
  {
    var Popped(p, r) := y.worker;
    y.(s := y.s.TestAndSet(p.ack),
       worker := if p.ack in y.s.flags then Notifying(p, r) else Writing(p, r))
  }

  function DoWrite(y: System, healthy: bool): System
    requires y.worker.Writing?
  {
    var Writing(p, r) := y.worker;
    var z := y.(s := y.s.Write(p, healthy));
    if y.s.CanWrite(p, healthy) then z.(worker := Notifying(p, r))
    else z.(worker := Removing(Some(p), r), log := y.log.(failed := y.log.failed + {p.ack}))
  }

  function DoNotify(y: System): System
    requires y.worker.Notifying?
  {
    var Notifying(p, r) := y.worker;
    y.(worker := Removing(Some(p), r), log := y.log.(notified := y.log.notified + [p]))
  }

  function DoDelete(y: System, healthy: bool): System
    requires y.worker.Removing?
  {
    var Removing(h, r) := y.worker;
    y.(s := y.s.Delete(r, healthy), worker := Removing(h, 0), log := Lost(y.log, r, healthy))
  }

  function Lost(l: Log, ack: nat, healthy: bool): Log {
    if healthy then l else l.(lostRemovals := l.lostRemovals + {ack})
  }

  function DoPurgePacket(y: System, healthy: bool): System
    requires y.closer.FlushingPackets? && y.closer.next < |y.s.queue|
  {
    var p := y.s.queue[y.closer.next];
    y.(s := y.s.PurgePacket(y.closer.next, healthy),
       closer := FlushingPackets(y.closer.next + 1, y.closer.end),
       log := if p.ack in y.s.flags || y.s.CanWrite(p, healthy) then y.log
              else y.log.(failed := y.log.failed + {p.ack}))
  }

  /** Packets that came in during the purge are cleared away with the others. */
  function DoClearPackets(y: System): System
    requires y.closer.FlushingPackets? && y.closer.end <= |y.s.queue|
  {
    y.(s := y.s.(queue := []),
       closer := FlushingRemovals(0, |y.s.removeQueue|),
       log := y.log.(flushed := true,
                     droppedPackets := y.log.droppedPackets
                       + set i | y.closer.end <= i < |y.s.queue| :: y.s.queue[i].ack))
  }

  function DoPurgeRemoval(y: System, healthy: bool): System
    requires y.closer.FlushingRemovals? && y.closer.next < |y.s.removeQueue|
  {
    var r := y.s.removeQueue[y.closer.next];
    y.(s := y.s.Delete(r, healthy),
       closer := FlushingRemovals(y.closer.next + 1, y.closer.end),
       log := Lost(y.log, r, healthy))
  }

  function DoClearRemovals(y: System): System
    requires y.closer.FlushingRemovals? && y.closer.end <= |y.s.removeQueue|
  {
    y.(s := y.s.(removeQueue := []),
       closer := Closed,
       log := y.log.(lostRemovals := y.log.lostRemovals
                       + set i | y.closer.end <= i < |y.s.removeQueue| :: y.s.removeQueue[i]))
  }

  function Apply(y: System, a: Action): System
    requires Enabled(y, a)
  {
    match a
    case Insert(_, _, _, _) => DoInsert(y, NewPacket(y, a))
    case ReadRow(ack) => y.(log := y.log.(handles := y.log.handles + {Handle(ack, false)}))
    case BeginRemove(t, h, locked) =>
      y.(ackers := y.ackers[t := if locked then Locked(h.ack) else Pushing(h.ack)])
    case TestAndSet(t) => DoTestAndSet(y, t)
    case Push(t) => DoPush(y, t)
    case Next => DoNext(y)
    case Decide => DoDecide(y)
    case Write(healthy) => DoWrite(y, healthy)
    case Notify => DoNotify(y)
    case Delete(healthy) => DoDelete(y, healthy)
    case Release => y.(worker := if y.worker.Removing? then Idle else Exited)
    case SetClose => y.(s := y.s.(close := true), closer := FlagSet)
    case Join => y.(closer := FlushingPackets(0, |y.s.queue|))
    case PurgePacket(healthy) => DoPurgePacket(y, healthy)
    case ClearPackets => DoClearPackets(y)
    case PurgeRemoval(healthy) => DoPurgeRemoval(y, healthy)
    case ClearRemovals => DoClearRemovals(y)
  }

  /** A storage just opened on a table whose largest ack it has read. */
  predicate Init(y: System) {
    && y.s == Storage([], [], {}, y.log.start, false, {}, y.s.db)
    && y.worker == Idle && y.closer == Open && y.ackers == map[]
    && y.log == Log(y.log.start, map[], {}, {}, {}, [], {}, {}, false)
    && forall a :: a in y.s.db ==> 1 <= a <= y.log.start
  }

  ghost predicate IsRun(ys: seq<System>, actions: seq<Action>) {
    && |ys| == |actions| + 1
    && forall i :: 0 <= i < |actions| ==> Enabled(ys[i], actions[i]) && ys[i + 1] == Apply(ys[i], actions[i])
  }

  // ---- the invariant ----

  /** Is this packet still to be looked at by the database thread or by the purge? */
  predicate Undecided(y: System, ack: nat) {
    || (y.worker.Popped? && y.worker.packet.ack == ack)
    || exists i :: PurgedCount(y.closer) <= i < |y.s.queue| && y.s.queue[i].ack == ack
  }

  function BeingWritten(y: System): set<nat> {
    if y.worker.Writing? then {y.worker.packet.ack} else {}
  }

  predicate Unwritten(y: System, ack: nat) {
    Undecided(y, ack) || ack in BeingWritten(y)
  }

  /** A removal that the database thread or the purge will still carry out. */
  predicate Outstanding(y: System, ack: nat) {
    || (Removal(y.worker) == ack && ack != 0)
    || exists j :: RemovedCount(y.closer) <= j < |y.s.removeQueue| && y.s.removeQueue[j] == ack
  }

  predicate Phases(y: System) {
    && y.log.start <= y.s.sequence
    && (y.worker.Exiting? || y.worker.Exited? ==> y.s.close)
    && (y.closer.FlushingPackets? || y.closer.FlushingRemovals? || y.closer.Closed? ==> y.worker.Exited?)
    && (!y.closer.Open? ==> y.s.close)
    && (y.closer.FlushingPackets? ==> y.closer.next <= y.closer.end <= |y.s.queue|)
    && (y.closer.FlushingRemovals? ==> y.closer.next <= y.closer.end <= |y.s.removeQueue|)
    && (y.log.flushed || y.log.droppedPackets != {} ==> y.s.close)
  }

  ghost predicate QueueAscending(y: System) {
    && (forall i, j :: 0 <= i < j < |y.s.queue| ==> y.s.queue[i].ack < y.s.queue[j].ack)
    && (forall i :: 0 <= i < |y.s.queue| ==> y.log.start < y.s.queue[i].ack <= y.s.sequence)
    && (Held(y.worker).Some? ==>
        && y.log.start < Held(y.worker).value.ack <= y.s.sequence
        && forall i :: 0 <= i < |y.s.queue| ==> Held(y.worker).value.ack < y.s.queue[i].ack)
  }

  /** Whatever is stored was inserted before everything that is still to be written. */
  ghost predicate StoredAreEarlier(y: System) {
    && (forall a :: a in y.s.db ==> 1 <= a <= y.s.sequence)
    && (forall a, x: nat :: a in y.s.db && Unwritten(y, x) ==> a < x)
  }

  /** Every number the threads deal in is that of a packet that exists. */
  ghost predicate KnownAcks(y: System) {
    && (forall a :: a in y.s.flags || a in y.log.acked || a in y.log.failed ==> 1 <= a <= y.s.sequence)
    && (forall j :: 0 <= j < |y.s.removeQueue| ==> 1 <= y.s.removeQueue[j] <= y.s.sequence)
    && Removal(y.worker) <= y.s.sequence
    && (forall t :: t in y.ackers ==> 1 <= y.ackers[t].ack <= y.s.sequence)
    && (forall h :: h in y.log.handles ==> 1 <= h.ack <= y.s.sequence && (h.weak ==> y.log.start < h.ack))
    && (forall t :: t in y.ackers && y.ackers[t].Locked? ==> y.log.start < y.ackers[t].ack)
  }

  ghost predicate Contents(y: System) {
    && (forall a :: a in y.log.inserted <==> y.log.start < a <= y.s.sequence)
    && (forall a :: a in y.log.inserted ==> y.log.inserted[a].ack == a)
    && (forall i :: 0 <= i < |y.s.queue| ==>
        y.s.queue[i].ack in y.log.inserted && y.log.inserted[y.s.queue[i].ack] == y.s.queue[i])
    && (Held(y.worker).Some? ==>
        && Held(y.worker).value.ack in y.log.inserted
        && y.log.inserted[Held(y.worker).value.ack] == Held(y.worker).value)
    && (forall a :: a in y.s.db && a in y.log.inserted ==> y.s.db[a] == RowOf(y.log.inserted[a]))
  }

  ghost predicate Indexed(y: System) {
    && (forall i :: 0 <= i < |y.s.queue| ==> EntryOf(y.s.queue[i]) in y.s.index)
    && (forall e :: e in y.s.index ==> e.ack in y.log.inserted && y.log.inserted[e.ack].receiver == e.receiver)
    && (!y.log.flushed ==> forall e :: e in y.s.index ==> Queued(y.s, e.ack))
  }

  /** Every inserted packet is somewhere. */
  ghost predicate Placed(y: System) {
    forall a :: a in y.log.inserted ==>
      || a in y.log.acked || a in y.log.failed || a in y.log.droppedPackets
      || Unwritten(y, a) || a in y.s.db
  }

  ghost predicate Flagged(y: System) {
    && (forall a :: (a in y.s.db && y.log.start < a) || a in y.log.failed ==> a in y.s.flags)
    && (y.worker.Writing? || y.worker.Notifying? ==> y.worker.packet.ack in y.s.flags)
    && (forall a :: Undecided(y, a) && a in y.s.flags ==> a in y.log.acked)
  }

  /** A removal under way is never for a packet that may yet be written. */
  ghost predicate RemovalsSafe(y: System) {
    && (forall a: nat :: Outstanding(y, a) ==> a in y.log.acked)
    && (forall a: nat :: a in y.log.acked && Undecided(y, a) ==> a in y.s.flags)
    && (forall t :: t in y.ackers && y.ackers[t].Pushing? && Undecided(y, y.ackers[t].ack) ==>
        y.ackers[t].ack in y.s.flags)
    && (forall h :: h in y.log.handles && !h.weak && Undecided(y, h.ack) ==> h.ack in y.s.flags)
  }

  /** An acked packet that is stored or about to be has a removal on its way. */
  ghost predicate AckedLeave(y: System) {
    forall a :: a in y.log.acked && (a in y.s.db || a in BeingWritten(y)) ==>
      Outstanding(y, a) || a in y.log.lostRemovals
  }

  ghost predicate NoticesTrue(y: System) {
    && (forall i :: 0 <= i < |y.log.notified| ==>
        y.log.notified[i].ack in y.s.db || y.log.notified[i].ack in y.log.acked)
    && (y.worker.Notifying? ==> y.worker.packet.ack in y.s.db || y.worker.packet.ack in y.log.acked)
  }

  /** Nobody is told twice, and never before the packet was taken from the queue. */
  ghost predicate NoticesOnce(y: System) {
    var told := y.log.notified;
    && (forall i, j :: 0 <= i < j < |told| ==> told[i].ack < told[j].ack)
    && (forall i :: 0 <= i < |told| ==> told[i].ack <= y.s.sequence)
    && (forall i, k :: 0 <= i < |told| && 0 <= k < |y.s.queue| ==> told[i].ack < y.s.queue[k].ack)
    && (y.worker.Popped? || y.worker.Writing? || y.worker.Notifying? ==>
        forall i :: 0 <= i < |told| ==> told[i].ack < y.worker.packet.ack)
  }

  ghost predicate DroppedGone(y: System) {
    forall a: nat :: a in y.log.droppedPackets ==>
      a <= y.s.sequence && a !in y.s.db && !Unwritten(y, a)
  }

  ghost predicate Inv(y: System) {
    && Phases(y) && QueueAscending(y) && StoredAreEarlier(y) && KnownAcks(y) && Contents(y)
    && Indexed(y) && Placed(y) && Flagged(y) && RemovalsSafe(y) && AckedLeave(y)
    && NoticesTrue(y) && NoticesOnce(y) && DroppedGone(y)
  }

  lemma InitInv(y: System)
    requires Init(y)
    ensures Inv(y)
  {
  }

  // ---- what a step changes ----

  /** Packets that become undecided. */
  function Coming(y: System, a: Action): set<nat> {
    if a.Insert? then {y.s.sequence + 1} else {}
  }

  /** Packets that stop being undecided. */
  function Going(y: System, a: Action): set<nat>
    requires Enabled(y, a)
  {
    match a
    case Next => if y.s.close then AcksOf(y.s.NextPacket()) else {}
    case Decide => {y.worker.packet.ack}
    case PurgePacket(_) => {y.s.queue[y.closer.next].ack}
    case ClearPackets => set i | y.closer.end <= i < |y.s.queue| :: y.s.queue[i].ack
    case _ => {}
  }

  /** Removals that are no longer outstanding. */
  function Ending(y: System, a: Action): set<nat>
    requires Enabled(y, a)
  {
    match a
    case Next => if y.s.close && y.s.removeQueue != [] then {y.s.removeQueue[0]} else {}
    case Delete(_) => {y.worker.removal}
    case PurgeRemoval(_) => {y.s.removeQueue[y.closer.next]}
    case ClearRemovals => set i | y.closer.end <= i < |y.s.removeQueue| :: y.s.removeQueue[i]
    case _ => {}
  }

  function Adding(y: System, a: Action): set<nat>
    requires Enabled(y, a)
  {
    if a.Push? then {y.ackers[a.thread].ack} else {}
  }

  function Storing(y: System, a: Action): set<nat>
    requires Enabled(y, a)
  {
    match a
    case Write(healthy) => if y.s.CanWrite(y.worker.packet, healthy) then {y.worker.packet.ack} else {}
    case PurgePacket(healthy) =>
      var p := y.s.queue[y.closer.next];
      if p.ack !in y.s.flags && y.s.CanWrite(p, healthy) then {p.ack} else {}
    case _ => {}
  }

  function Failing(y: System, a: Action): set<nat>
    requires Enabled(y, a)
  {
    match a
    case Write(healthy) => {y.worker.packet.ack} - Storing(y, a)
    case PurgePacket(healthy) => {y.s.queue[y.closer.next].ack} - y.s.flags - Storing(y, a)
    case _ => {}
  }

  function Deleting(y: System, a: Action): set<nat>
    requires Enabled(y, a)
  {
    match a
    case Delete(healthy) => if healthy then {y.worker.removal} else {}
    case PurgeRemoval(healthy) => if healthy then {y.s.removeQueue[y.closer.next]} else {}
    case _ => {}
  }

  function Flagging(y: System, a: Action): set<nat>
    requires Enabled(y, a)
  {
    match a
    case TestAndSet(t) => {y.ackers[t].ack}
    case Decide => {y.worker.packet.ack}
    case PurgePacket(_) => {y.s.queue[y.closer.next].ack}
    case _ => {}
  }

  function Acking(y: System, a: Action): set<nat>
    requires Enabled(y, a)
  {
    match a
    case TestAndSet(t) => {y.ackers[t].ack} - y.s.flags
    case Push(t) => {y.ackers[t].ack}
    case _ => {}
  }

  lemma TableAfter(y: System, a: Action)
    requires Phases(y) && Enabled(y, a)
    ensures Apply(y, a).s.db.Keys == y.s.db.Keys + Storing(y, a) - Deleting(y, a)
    ensures Apply(y, a).log.failed == y.log.failed + Failing(y, a)
  {
  }

  lemma WritingAfter(y: System, a: Action)
    requires Phases(y) && Enabled(y, a)
    ensures BeingWritten(Apply(y, a)) ==
      if a.Decide? then Flagging(y, a) - y.s.flags else if a.Write? then {} else BeingWritten(y)
  {
  }

  lemma FlagsAfter(y: System, a: Action)
    requires Phases(y) && Enabled(y, a)
    ensures Apply(y, a).s.flags == y.s.flags + Flagging(y, a)
    ensures Apply(y, a).log.acked == y.log.acked + Acking(y, a)
    ensures Apply(y, a).log.start == y.log.start
    ensures Apply(y, a).s.sequence == if a.Insert? then y.s.sequence + 1 else y.s.sequence
  {
  }

  lemma LossesLogged(y: System, a: Action)
    requires Enabled(y, a)
    ensures y.log.lostRemovals <= Apply(y, a).log.lostRemovals
    ensures Ending(y, a) - Deleting(y, a) - {0} <= Apply(y, a).log.lostRemovals
    ensures y.log.droppedPackets <= Apply(y, a).log.droppedPackets
    ensures a.Next? || a.ClearPackets? ==> Going(y, a) <= Apply(y, a).log.droppedPackets
  {
  }

  /** Steps that leave the queued packets and those in hand alone. */
  lemma QueueQuiet(y: System, a: Action)
    requires Enabled(y, a) && !a.Insert? && !a.Next? && !a.ClearPackets?
    ensures var z := Apply(y, a);
      && z.s.queue == y.s.queue && z.s.index == y.s.index && z.log.inserted == y.log.inserted
      && z.log.flushed == y.log.flushed
      && (Held(z.worker) == Held(y.worker) || Held(z.worker).None?)
      && z.log.start == y.log.start && z.s.sequence == y.s.sequence
  {
  }

  lemma RemovalsQuiet(y: System, a: Action)
    requires Enabled(y, a) && !a.Push? && !a.Next? && !a.ClearRemovals?
    ensures var z := Apply(y, a);
      z.s.removeQueue == y.s.removeQueue && (Removal(z.worker) == Removal(y.worker) || Removal(z.worker) == 0)
  {
  }

  lemma PhasesKept(y: System, a: Action)
    requires Phases(y) && Enabled(y, a)
    ensures Phases(Apply(y, a))
  {
  }

  lemma UndecidedAfter(y: System, a: Action, x: nat)
    requires Phases(y) && QueueAscending(y) && Enabled(y, a)
    ensures Undecided(Apply(y, a), x) <==> (Undecided(y, x) || x in Coming(y, a)) && x !in Going(y, a)
  {
    match a
    case Insert(_, _, _, _) => UndecidedAfterInsert(y, a, x);
    case Next => UndecidedAfterNext(y, x);
    case ClearPackets =>
    case _ => QueueQuiet(y, a);
  }

  lemma UndecidedAfterInsert(y: System, a: Action, x: nat)
    requires Phases(y) && QueueAscending(y) && a.Insert?
    ensures Undecided(DoInsert(y, NewPacket(y, a)), x) <==> Undecided(y, x) || x == y.s.sequence + 1
  {
    var z := DoInsert(y, NewPacket(y, a));
    assert z.s.queue[|y.s.queue|].ack == y.s.sequence + 1;
    assert forall i :: 0 <= i < |y.s.queue| ==> z.s.queue[i] == y.s.queue[i];
  }

  lemma UndecidedAfterNext(y: System, x: nat)
    requires Phases(y) && QueueAscending(y) && Enabled(y, Next)
    ensures Undecided(DoNext(y), x) <==> Undecided(y, x) && x !in Going(y, Next)
  {
    var z := DoNext(y);
    if y.s.queue != [] {
      assert forall i :: 0 < i < |y.s.queue| ==> z.s.queue[i - 1] == y.s.queue[i];
      assert forall i :: 0 <= i < |z.s.queue| ==> z.s.queue[i] == y.s.queue[i + 1];
    }
  }

  lemma OutstandingAfter(y: System, a: Action, x: nat)
    requires Phases(y) && KnownAcks(y) && Enabled(y, a)
    ensures Outstanding(Apply(y, a), x) ==> Outstanding(y, x) || x in Adding(y, a)
    ensures Outstanding(y, x) || x in Adding(y, a) ==> Outstanding(Apply(y, a), x) || x in Ending(y, a)
  {
    var z := Apply(y, a);
    match a
    case Push(t) =>
      assert z.s.removeQueue[|y.s.removeQueue|] == y.ackers[t].ack;
      assert forall i :: 0 <= i < |y.s.removeQueue| ==> z.s.removeQueue[i] == y.s.removeQueue[i];
    case Next =>
      if y.s.removeQueue != [] {
        assert forall i :: 0 < i < |y.s.removeQueue| ==> z.s.removeQueue[i - 1] == y.s.removeQueue[i];
        assert forall i :: 0 <= i < |z.s.removeQueue| ==> z.s.removeQueue[i] == y.s.removeQueue[i + 1];
      }
    case ClearRemovals =>
    case _ => RemovalsQuiet(y, a);
  }

  // ---- every step keeps the invariant ----

  lemma QueueAscendingKept(y: System, a: Action)
    requires Phases(y) && QueueAscending(y) && Enabled(y, a)
    ensures QueueAscending(Apply(y, a))
  {
    match a
    case Insert(_, _, _, _) =>
    case Next =>
    case ClearPackets =>
    case _ =>
      hide Apply;
      QueueQuiet(y, a);
  }

  lemma StoredIsFirst(y: System, a: Action)
    requires Phases(y) && QueueAscending(y) && Enabled(y, a)
    ensures forall s :: s in Storing(y, a) ==> 1 <= s <= y.s.sequence
    ensures forall s, x: nat :: s in Storing(y, a) && Undecided(y, x) && x !in Going(y, a) ==> s < x
    ensures Storing(y, a) != {} ==> BeingWritten(Apply(y, a)) == {} && Coming(y, a) == {}
  {
  }

  lemma StoredAreEarlierKept(y: System, a: Action)
    requires Phases(y) && QueueAscending(y) && StoredAreEarlier(y) && Enabled(y, a)
    ensures StoredAreEarlier(Apply(y, a))
  {
    var z := Apply(y, a);
    TableAfter(y, a);
    WritingAfter(y, a);
    FlagsAfter(y, a);
    StoredIsFirst(y, a);
    FlaggingUndecided(y, a);
    forall s, x: nat | s in z.s.db && Unwritten(z, x)
      ensures s < x
    {
      UndecidedAfter(y, a, x);
      hide Apply, Undecided, Storing, Deleting, Going, Flagging, QueueAscending, StoredAreEarlier;
      assert s in z.s.db.Keys;
      EarlierIn(y, s, x);
      assert s in Storing(y, a) || s in y.s.db;
    }
  }

  lemma EarlierIn(y: System, s: nat, x: nat)
    requires StoredAreEarlier(y)
    ensures s in y.s.db ==> 1 <= s <= y.s.sequence && (Unwritten(y, x) ==> s < x)
  {
  }

  /** A packet about to be written was the one in hand. */
  lemma FlaggingUndecided(y: System, a: Action)
    requires Enabled(y, a)
    ensures a.Decide? ==> forall x :: x in Flagging(y, a) ==> Undecided(y, x)
  {
  }

  lemma KnownAcksKept(y: System, a: Action)
    requires Phases(y) && QueueAscending(y) && StoredAreEarlier(y) && KnownAcks(y) && Enabled(y, a)
    ensures KnownAcks(Apply(y, a))
  {
    KnownRemovalsKept(y, a);
    FlagsAfter(y, a);
    TableAfter(y, a);
    NewAcks(y, a);
    hide Apply, Undecided, Storing, Deleting, Failing, Flagging, Acking;
  }

  lemma NewAcks(y: System, a: Action)
    requires Phases(y) && QueueAscending(y) && StoredAreEarlier(y) && KnownAcks(y) && Enabled(y, a)
    ensures forall x :: x in Flagging(y, a) + Acking(y, a) + Failing(y, a) ==> 1 <= x <= y.s.sequence
    ensures NewRequestAcks(y, Apply(y, a))
  {
    NewAckersAndHandles(y, a);
    hide Apply, Undecided, StoredAreEarlier, NewRequestAcks;
  }

  ghost predicate NewRequestAcks(y: System, z: System) {
    && (forall t :: t in z.ackers ==> 1 <= z.ackers[t].ack <= y.s.sequence)
    && (forall h :: h in z.log.handles ==> 1 <= h.ack <= z.s.sequence && (h.weak ==> y.log.start < h.ack))
    && (forall t :: t in z.ackers && z.ackers[t].Locked? ==> y.log.start < z.ackers[t].ack)
  }

  lemma NewAckersAndHandles(y: System, a: Action)
    requires Phases(y) && StoredAreEarlier(y) && KnownAcks(y) && Enabled(y, a)
    ensures NewRequestAcks(y, Apply(y, a))
  {
    hide Unwritten, Alive;
  }

  lemma KnownRemovalsKept(y: System, a: Action)
    requires KnownAcks(y) && Enabled(y, a)
    ensures var z := Apply(y, a);
      && (forall j :: 0 <= j < |z.s.removeQueue| ==> 1 <= z.s.removeQueue[j] <= y.s.sequence)
      && Removal(z.worker) <= y.s.sequence
  {
    match a
    case Push(t) =>
    case Next =>
    case ClearRemovals =>
    case _ =>
      RemovalsQuiet(y, a);
      hide Apply;
  }

  lemma ContentsKept(y: System, a: Action)
    requires Phases(y) && QueueAscending(y) && StoredAreEarlier(y) && KnownAcks(y) && Contents(y)
    requires Enabled(y, a)
    ensures Contents(Apply(y, a))
  {
    RowsKept(y, a);
    match a
    case Insert(_, _, _, _) =>
    case Next =>
    case ClearPackets =>
    case _ =>
      QueueQuiet(y, a);
      hide Apply;
  }

  lemma RowsKept(y: System, a: Action)
    requires Phases(y) && StoredAreEarlier(y) && Contents(y) && Enabled(y, a)
    ensures forall x :: x in Apply(y, a).s.db && x in Apply(y, a).log.inserted ==>
      Apply(y, a).s.db[x] == RowOf(Apply(y, a).log.inserted[x])
  {
    hide Unwritten;
  }

  lemma IndexedKept(y: System, a: Action)
    requires Phases(y) && QueueAscending(y) && Contents(y) && Indexed(y) && Enabled(y, a)
    ensures Indexed(Apply(y, a))
  {
    match a
    case Insert(_, _, _, _) => IndexedInsert(y, NewPacket(y, a));
    case Next => IndexedNext(y);
    case ClearPackets =>
    case _ =>
      QueueQuiet(y, a);
      hide Apply;
  }

  lemma IndexedInsert(y: System, p: Packet)
    requires Contents(y) && Indexed(y) && p.ack == y.s.sequence + 1
    ensures Indexed(DoInsert(y, p))
  {
    var z := DoInsert(y, p);
    assert z.s.queue[|y.s.queue|] == p;
    assert forall i :: 0 <= i < |y.s.queue| ==> z.s.queue[i] == y.s.queue[i];
  }

  lemma IndexedNext(y: System)
    requires Phases(y) && QueueAscending(y) && Contents(y) && Indexed(y) && Enabled(y, Next)
    ensures Indexed(DoNext(y))
  {
    var z := DoNext(y);
    if y.s.queue != [] {
      assert forall i :: 0 < i < |y.s.queue| ==> z.s.queue[i - 1] == y.s.queue[i];
      forall e | e in z.s.index && !z.log.flushed
        ensures Queued(z.s, e.ack)
      {
        var i :| 0 <= i < |y.s.queue| && y.s.queue[i].ack == e.ack;
        assert i > 0 && z.s.queue[i - 1].ack == e.ack;
      }
    }
  }

  lemma PlacedKept(y: System, a: Action)
    requires Inv(y) && Enabled(y, a)
    ensures Placed(Apply(y, a))
  {
    TableAfter(y, a);
    WritingAfter(y, a);
    FlagsAfter(y, a);
    LossesLogged(y, a);
    InsertedAfter(y, a);
    GoneSomewhere(y, a);
    forall x: nat
      ensures Undecided(Apply(y, a), x) <==> (Undecided(y, x) || x in Coming(y, a)) && x !in Going(y, a)
    {
      UndecidedAfter(y, a, x);
    }
    hide Apply, Undecided, Outstanding, Going, Storing, Failing, Deleting, Flagging, Acking, Indexed, NoticesTrue, NoticesOnce;
  }

  lemma InsertedAfter(y: System, a: Action)
    requires Enabled(y, a)
    ensures Apply(y, a).log.inserted.Keys == y.log.inserted.Keys + Coming(y, a)
    ensures Coming(y, a) * Going(y, a) == {}
  {
  }

  /** Where the packets are that stop being undecided, being written, or stored. */
  lemma GoneSomewhere(y: System, a: Action)
    requires Inv(y) && Enabled(y, a)
    ensures Going(y, a) <= Apply(y, a).log.droppedPackets + BeingWritten(Apply(y, a)) + y.s.flags
      + Storing(y, a) + Failing(y, a)
    ensures a.Write? ==> BeingWritten(y) <= Storing(y, a) + Failing(y, a)
    ensures Deleting(y, a) <= y.log.acked
    ensures a.Decide? ==> BeingWritten(y) == {}
    ensures forall x: nat :: x in Going(y, a) && x in y.s.flags ==>
      Undecided(y, x) || x in Apply(y, a).log.droppedPackets
  {
    DeletedWasAcked(y, a);
    hide Outstanding, RemovalsSafe, Indexed, AckedLeave, NoticesTrue, NoticesOnce;
  }

  lemma FlaggedKept(y: System, a: Action)
    requires Inv(y) && Enabled(y, a)
    ensures Flagged(Apply(y, a))
  {
    TableAfter(y, a);
    WritingAfter(y, a);
    FlagsAfter(y, a);
    forall x: nat {
      UndecidedAfter(y, a, x);
    }
    hide Apply, Undecided;
  }

  lemma RemovalsSafeKept(y: System, a: Action)
    requires Inv(y) && Enabled(y, a)
    ensures RemovalsSafe(Apply(y, a))
  {
    FlagsAfter(y, a);
    forall x: nat
      ensures Undecided(Apply(y, a), x) ==> Undecided(y, x) || x in Coming(y, a)
      ensures Outstanding(Apply(y, a), x) ==> Outstanding(y, x) || x in Adding(y, a)
    {
      UndecidedAfter(y, a, x);
      OutstandingAfter(y, a, x);
    }
    NewRequests(y, a);
    ComingIsNew(y, a);
    hide Apply, Undecided, Outstanding, Acking, Flagging, Coming;
  }

  lemma ComingIsNew(y: System, a: Action)
    requires KnownAcks(y) && Enabled(y, a)
    ensures forall x :: x in Coming(y, a) ==> x == y.s.sequence + 1
    ensures a.Push? || a.TestAndSet? || a.ReadRow? ==> Coming(y, a) == {}
    ensures forall x :: x in Acking(y, a) ==>
      x in Flagging(y, a)
      || exists t :: t in y.ackers && y.ackers[t].Pushing? && y.ackers[t].ack == x
  {
  }

  /** Whoever is about to push, or holds a bare handle, knows a packet that nobody can
      still write, or one whose flag is set. */
  lemma NewRequests(y: System, a: Action)
    requires Inv(y) && Enabled(y, a)
    ensures var z := Apply(y, a);
      && (forall t :: t in z.ackers && z.ackers[t].Pushing? && Undecided(y, z.ackers[t].ack) ==>
          z.ackers[t].ack in z.s.flags)
      && (forall t :: t in z.ackers ==> z.ackers[t].ack <= y.s.sequence)
      && (forall h :: h in z.log.handles && !h.weak && Undecided(y, h.ack) ==> h.ack in z.s.flags)
      && (forall h :: h in z.log.handles && !h.weak ==> h.ack <= y.s.sequence)
  {
    hide Indexed, Flagged, AckedLeave, NoticesTrue, NoticesOnce, Placed, QueueAscending, Contents, DroppedGone, Phases;
    FlagsAfter(y, a);
    match a
    case BeginRemove(t, h, locked) =>
      UndecidedIsAlive(y, h.ack);
      hide Undecided, Outstanding, Alive;
    case ReadRow(ack) =>
      StoredIsDecided(y, ack);
      hide Undecided, Outstanding, Alive;
    case _ =>
      hide Undecided, Outstanding, Alive;
  }

  lemma StoredIsDecided(y: System, x: nat)
    requires StoredAreEarlier(y) && x in y.s.db
    ensures !Undecided(y, x)
  {
    assert !Unwritten(y, x);
  }

  lemma UndecidedIsAlive(y: System, x: nat)
    ensures Undecided(y, x) ==> Alive(y, x)
  {
  }

  lemma AckedLeaveKept(y: System, a: Action)
    requires Inv(y) && Enabled(y, a)
    ensures AckedLeave(Apply(y, a))
  {
    TableAfter(y, a);
    WritingAfter(y, a);
    FlagsAfter(y, a);
    LossesLogged(y, a);
    forall x: nat
      ensures Outstanding(y, x) || x in Adding(y, a) ==> Outstanding(Apply(y, a), x) || x in Ending(y, a)
    {
      OutstandingAfter(y, a, x);
    }
    AckedNotStored(y, a);
    hide Apply, Undecided, Outstanding, Ending, Deleting, Acking, Flagging, Storing;
  }

  /** An ack that finds the flag clear comes before the packet is stored, and what is
      stored without an outstanding removal was not acked. */
  lemma AckedNotStored(y: System, a: Action)
    requires Inv(y) && Enabled(y, a)
    ensures forall x :: x in Acking(y, a) ==>
      x in Adding(y, a) || (x !in y.s.db && x !in BeingWritten(y) && x !in Storing(y, a) && !a.Decide?)
    ensures forall x :: x in Storing(y, a) && x in y.log.acked ==> x in BeingWritten(y)
    ensures a.Decide? ==> Flagging(y, a) - y.s.flags !! y.log.acked
    ensures Ending(y, a) * Deleting(y, a) != {} ==> BeingWritten(Apply(y, a)) == {} && Storing(y, a) == {}
    ensures a.Decide? ==> Acking(y, a) == {}
  {
    hide Outstanding;
  }

  lemma NoticesTrueKept(y: System, a: Action)
    requires Inv(y) && Enabled(y, a)
    ensures NoticesTrue(Apply(y, a))
  {
    TableAfter(y, a);
    FlagsAfter(y, a);
    hide Undecided, Outstanding;
  }

  lemma NoticesOnceKept(y: System, a: Action)
    requires Phases(y) && QueueAscending(y) && NoticesOnce(y) && Enabled(y, a)
    ensures NoticesOnce(Apply(y, a))
  {
    match a
    case Insert(_, _, _, _) => NoticesOnceInsert(y, NewPacket(y, a));
    case Next => NoticesOnceNext(y);
    case ClearPackets =>
    case _ => NoticesOnceQuiet(y, a);
  }

  lemma NoticesOnceInsert(y: System, p: Packet)
    requires NoticesOnce(y) && p.ack == y.s.sequence + 1
    ensures NoticesOnce(DoInsert(y, p))
  {
  }

  lemma NoticesOnceNext(y: System)
    requires NoticesOnce(y) && QueueAscending(y) && Enabled(y, Next)
    ensures NoticesOnce(DoNext(y))
  {
  }

  lemma NoticesOnceQuiet(y: System, a: Action)
    requires Phases(y) && QueueAscending(y) && NoticesOnce(y) && Enabled(y, a)
    requires !a.Insert? && !a.Next? && !a.ClearPackets?
    ensures NoticesOnce(Apply(y, a))
  {
    QueueQuiet(y, a);
    var z := Apply(y, a);
    assert !a.Notify? ==> z.log.notified == y.log.notified;
    assert a.Notify? ==> z.log.notified == y.log.notified + [y.worker.packet] && z.worker.Removing?;
    assert z.worker.Popped? || z.worker.Writing? || z.worker.Notifying? ==>
      (y.worker.Popped? || y.worker.Writing? || y.worker.Notifying?) && z.worker.packet == y.worker.packet;
    hide Apply;
  }

  lemma DroppedGoneKept(y: System, a: Action)
    requires Inv(y) && Enabled(y, a)
    ensures DroppedGone(Apply(y, a))
  {
    TableAfter(y, a);
    WritingAfter(y, a);
    FlagsAfter(y, a);
    DroppedAfter(y, a);
    FlaggingUndecided(y, a);
    forall x: nat
      ensures Undecided(Apply(y, a), x) <==> (Undecided(y, x) || x in Coming(y, a)) && x !in Going(y, a)
    {
      UndecidedAfter(y, a, x);
    }
    hide Apply, Undecided, Storing, Flagging, Going, Deleting;
  }

  lemma DroppedAfter(y: System, a: Action)
    requires Inv(y) && Enabled(y, a)
    ensures var z := Apply(y, a);
      && (forall x: nat :: x in z.log.droppedPackets ==>
          x in y.log.droppedPackets
          || (x <= y.s.sequence && x in Going(y, a) && x !in y.s.db && x !in BeingWritten(y) && !a.Decide?))
      && (z.log.droppedPackets != y.log.droppedPackets ==> Storing(y, a) == {})
      && (forall x :: x in Storing(y, a) ==> Unwritten(y, x))
  {
    hide Outstanding;
    match a
    case Next =>
      if y.s.queue != [] {
        QueuedIsNotStored(y, 0);
      }
    case ClearPackets =>
      forall i | y.closer.end <= i < |y.s.queue|
        ensures y.s.queue[i].ack !in y.s.db
      {
        QueuedIsNotStored(y, i);
      }
    case _ =>
  }

  lemma QueuedIsNotStored(y: System, i: nat)
    requires StoredAreEarlier(y) && PurgedCount(y.closer) <= i < |y.s.queue|
    ensures y.s.queue[i].ack !in y.s.db
  {
    assert Unwritten(y, y.s.queue[i].ack);
  }

  lemma InvKept(y: System, a: Action)
    requires Inv(y) && Enabled(y, a)
    ensures Inv(Apply(y, a))
  {
    PhasesKept(y, a);
    QueueAscendingKept(y, a);
    StoredAreEarlierKept(y, a);
    KnownAcksKept(y, a);
    ContentsKept(y, a);
    IndexedKept(y, a);
    PlacedKept(y, a);
    FlaggedKept(y, a);
    RemovalsSafeKept(y, a);
    AckedLeaveKept(y, a);
    NoticesTrueKept(y, a);
    NoticesOnceKept(y, a);
    DroppedGoneKept(y, a);
    hide *;
    assert Inv(Apply(y, a)) by {
      InvIs(Apply(y, a));
    }
  }

  lemma InvIs(y: System)
    requires Phases(y) && QueueAscending(y) && StoredAreEarlier(y) && KnownAcks(y) && Contents(y)
    requires Indexed(y) && Placed(y) && Flagged(y) && RemovalsSafe(y) && AckedLeave(y)
    requires NoticesTrue(y) && NoticesOnce(y) && DroppedGone(y)
    ensures Inv(y)
  {
  }

  /** Every state of every run satisfies the invariant. */
  lemma {:induction false} RunInv(ys: seq<System>, actions: seq<Action>, i: nat)
    requires IsRun(ys, actions) && Init(ys[0]) && i < |ys|
    ensures Inv(ys[i])
    decreases i
  {
    hide Inv, Init, Enabled, Apply;
    if i == 0 {
      InitInv(ys[0]);
    } else {
      RunInv(ys, actions, i - 1);
      InvKept(ys[i - 1], actions[i - 1]);
    }
  }

  ghost predicate Reachable(y: System) {
    exists ys, actions :: IsRun(ys, actions) && Init(ys[0]) && ys[|actions|] == y
  }

  lemma ReachableInv(y: System)
    requires Reachable(y)
    ensures Inv(y)
  {
    hide Inv, Init, Enabled, Apply;
    var ys, actions :| IsRun(ys, actions) && Init(ys[0]) && ys[|actions|] == y;
    RunInv(ys, actions, |actions|);
  }

  // ---- acked packets go away ----

  /** An acked packet that is in the database, or about to be written to it, has its
      removal queued or in the database thread's hands, unless that removal was lost. */
  lemma AckedPacketsLeave(y: System, ack: nat)
    requires Reachable(y) && ack in y.log.acked
    requires ack in y.s.db || ack in BeingWritten(y)
    ensures ack in y.s.removeQueue || Removal(y.worker) == ack || ack in y.log.lostRemovals
  {
    ReachableInv(y);
  }

  /** Does the step lose the removal of this packet? Deletions can fail; the last call of
      next_packet drops the removal at the head of the queue, and what is pushed while the
      purge runs is cleared away unseen. */
  predicate LosesRemovalOf(y: System, a: Action, ack: nat)
    requires Enabled(y, a)
  {
    match a
    case Next => y.s.close && y.s.removeQueue != [] && y.s.removeQueue[0] == ack
    case Delete(healthy) => !healthy && y.worker.removal == ack
    case PurgeRemoval(healthy) => !healthy && y.s.removeQueue[y.closer.next] == ack
    case ClearRemovals => exists j :: y.closer.end <= j < |y.s.removeQueue| && y.s.removeQueue[j] == ack
    case _ => false
  }

  /** Does the step drop this packet? The last call of next_packet drops the one at the
      head of the queue, and what is inserted while the purge runs is cleared away. */
  predicate DropsPacketOf(y: System, a: Action, ack: nat)
    requires Enabled(y, a)
  {
    match a
    case Next => y.s.close && y.s.queue != [] && y.s.queue[0].ack == ack
    case ClearPackets => exists i :: y.closer.end <= i < |y.s.queue| && y.s.queue[i].ack == ack
    case _ => false
  }

  lemma LossAfter(y: System, a: Action, ack: nat)
    requires Phases(y) && KnownAcks(y) && Enabled(y, a)
    ensures ack in Apply(y, a).log.lostRemovals <==> ack in y.log.lostRemovals || LosesRemovalOf(y, a, ack)
    ensures ack in Apply(y, a).log.droppedPackets <==> ack in y.log.droppedPackets || DropsPacketOf(y, a, ack)
  {
  }

  /** A run has lost a removal, or dropped a packet, exactly if one of its steps did. */
  lemma {:induction false} LossExactly(ys: seq<System>, actions: seq<Action>, n: nat, ack: nat)
    requires IsRun(ys, actions) && Init(ys[0]) && n <= |actions|
    ensures ack in ys[n].log.lostRemovals <==>
      exists i :: 0 <= i < n && LosesRemovalOf(ys[i], actions[i], ack)
    ensures ack in ys[n].log.droppedPackets <==>
      exists i :: 0 <= i < n && DropsPacketOf(ys[i], actions[i], ack)
    decreases n
  {
    hide Inv, Enabled, Apply, LosesRemovalOf, DropsPacketOf;
    if n > 0 {
      LossExactly(ys, actions, n - 1, ack);
      RunInv(ys, actions, n - 1);
      assert Phases(ys[n - 1]) && KnownAcks(ys[n - 1]) by {
        InvParts(ys[n - 1]);
      }
      LossAfter(ys[n - 1], actions[n - 1], ack);
    }
  }

  lemma InvParts(y: System)
    requires Inv(y)
    ensures Phases(y) && KnownAcks(y) && RemovalsSafe(y)
  {
  }

  /** Only removals of acked packets are there to be lost. */
  lemma LostWasAcked(y: System, a: Action, ack: nat)
    requires Phases(y) && KnownAcks(y) && RemovalsSafe(y) && Enabled(y, a) && LosesRemovalOf(y, a, ack)
    ensures ack in y.log.acked
  {
    assert Outstanding(y, ack);
  }

  lemma LostIsAcked(ys: seq<System>, actions: seq<Action>, n: nat, ack: nat)
    requires IsRun(ys, actions) && Init(ys[0]) && n <= |actions| && ack in ys[n].log.lostRemovals
    ensures ack in ys[n].log.acked
  {
    hide Init, Enabled, Apply, LosesRemovalOf, Inv;
    LossExactly(ys, actions, n, ack);
    var i :| 0 <= i < n && LosesRemovalOf(ys[i], actions[i], ack);
    RunInv(ys, actions, i);
    InvParts(ys[i]);
    LostWasAcked(ys[i], actions[i], ack);
    RunKeeps(ys, actions, i, n);
  }

  /** Once nothing is left to do, the acked packets in the database are exactly those
      whose removal was lost. */
  lemma DrainedHoldsNoAcked(y: System)
    requires Reachable(y) && y.s.removeQueue == [] && Removal(y.worker) == 0
    ensures y.s.db.Keys * y.log.acked == y.s.db.Keys * y.log.lostRemovals
  {
    ReachableInv(y);
    var ys, actions :| IsRun(ys, actions) && Init(ys[0]) && ys[|actions|] == y;
    forall ack | ack in y.log.lostRemovals
      ensures ack in y.log.acked
    {
      hide Inv, IsRun, Init;
      LostIsAcked(ys, actions, |actions|, ack);
    }
  }

  /** So in a run with no removal left to do, a packet in the database is acked exactly if
      some step lost its removal. */
  lemma AckedSurvivesExactly(ys: seq<System>, actions: seq<Action>, n: nat, ack: nat)
    requires IsRun(ys, actions) && Init(ys[0]) && n <= |actions|
    requires ys[n].s.removeQueue == [] && Removal(ys[n].worker) == 0 && ack in ys[n].s.db
    ensures ack in ys[n].log.acked <==>
      exists i :: 0 <= i < n && LosesRemovalOf(ys[i], actions[i], ack)
  {
    hide Init, Enabled, Apply, LosesRemovalOf, Inv;
    assert Reachable(ys[n]) by {
      RunIsReachable(ys, actions, n);
    }
    DrainedHoldsNoAcked(ys[n]);
    LossExactly(ys, actions, n, ack);
    assert ack in ys[n].s.db.Keys * ys[n].log.acked <==> ack in ys[n].s.db.Keys * ys[n].log.lostRemovals;
  }

  lemma RunIsReachable(ys: seq<System>, actions: seq<Action>, n: nat)
    requires IsRun(ys, actions) && Init(ys[0]) && n <= |actions|
    ensures Reachable(ys[n])
  {
    hide Init, Enabled, Apply;
    assert IsRun(ys[..n + 1], actions[..n]) && ys[..n + 1][n] == ys[n];
  }

  // ---- where packets are ----

  /** Before close, a packet that was neither acked nor failed to be written is in exactly
      one place: queued and indexed, in the database thread's hand, or stored. */
  lemma InExactlyOnePlace(y: System, ack: nat)
    requires Reachable(y) && !y.s.close
    requires ack in y.log.inserted && ack !in y.log.acked && ack !in y.log.failed
    ensures var p := y.log.inserted[ack];
      var queued, inHand, stored := p in y.s.queue, InHand(y.worker) == Some(p), ack in y.s.db;
      && (queued || inHand || stored)
      && !(queued && inHand) && !(queued && stored) && !(inHand && stored)
      && (queued <==> EntryOf(p) in y.s.index)
      && (stored ==> y.s.db[ack] == RowOf(p))
  {
    ReachableInv(y);
    SomewhereUnlessStored(y, ack);
    NowhereElse(y, ack);
  }

  lemma SomewhereUnlessStored(y: System, ack: nat)
    requires Inv(y) && !y.s.close
    requires ack in y.log.inserted && ack !in y.log.acked && ack !in y.log.failed
    ensures var p := y.log.inserted[ack]; p in y.s.queue || InHand(y.worker) == Some(p) || ack in y.s.db
  {
    hide Indexed, Flagged, RemovalsSafe, AckedLeave, NoticesTrue, NoticesOnce, StoredAreEarlier;
    if ack !in y.s.db && ack !in BeingWritten(y) {
      assert Undecided(y, ack);
    }
  }

  lemma NowhereElse(y: System, ack: nat)
    requires Inv(y) && !y.s.close && ack in y.log.inserted
    ensures var p := y.log.inserted[ack];
      var queued, inHand, stored := p in y.s.queue, InHand(y.worker) == Some(p), ack in y.s.db;
      && !(queued && inHand) && !(queued && stored) && !(inHand && stored)
      && (queued <==> EntryOf(p) in y.s.index)
      && (stored ==> y.s.db[ack] == RowOf(p))
  {
    hide Flagged, RemovalsSafe, AckedLeave, NoticesTrue, NoticesOnce, Placed;
    var p := y.log.inserted[ack];
    assert p.ack == ack;
    if p in y.s.queue {
      var i :| 0 <= i < |y.s.queue| && y.s.queue[i] == p;
      QueuedIsNotStored(y, i);
    }
    if InHand(y.worker) == Some(p) {
      assert Unwritten(y, ack);
    }
    if EntryOf(p) in y.s.index {
      assert Queued(y.s, ack);
      var i :| 0 <= i < |y.s.queue| && y.s.queue[i].ack == ack;
      assert y.s.queue[i] == p;
    }
  }

  /** Acks are at least 1 and grow from what this run stored over the packet in hand and
      along the queue up to the sequence number. */
  lemma AcksAscend(y: System)
    requires Reachable(y)
    ensures forall i, j :: 0 <= i < j < |y.s.queue| ==> y.s.queue[i].ack < y.s.queue[j].ack
    ensures forall i :: 0 <= i < |y.s.queue| ==> 1 <= y.s.queue[i].ack <= y.s.sequence
    ensures InHand(y.worker).Some? ==>
      forall i :: 0 <= i < |y.s.queue| ==> InHand(y.worker).value.ack < y.s.queue[i].ack
    ensures InHand(y.worker).Some? ==> forall a :: a in y.s.db ==> 1 <= a < InHand(y.worker).value.ack
    ensures !y.s.close ==>
      forall a, i :: a in y.s.db && 0 <= i < |y.s.queue| ==> 1 <= a < y.s.queue[i].ack
  {
    ReachableInv(y);
    hide Outstanding;
    forall a, i | !y.s.close && a in y.s.db && 0 <= i < |y.s.queue|
      ensures 1 <= a < y.s.queue[i].ack
    {
      assert Unwritten(y, y.s.queue[i].ack);
    }
    if InHand(y.worker).Some? {
      assert Unwritten(y, InHand(y.worker).value.ack);
    }
  }

  /** A write never meets a primary key that is taken: it fails only with the database. */
  lemma WritesNeverCollide(y: System, healthy: bool)
    requires Reachable(y)
    ensures y.worker.Writing? ==> y.s.CanWrite(y.worker.packet, healthy) == healthy
    ensures Enabled(y, PurgePacket(healthy)) ==>
      y.s.CanWrite(y.s.queue[y.closer.next], healthy) == healthy
  {
    ReachableInv(y);
    hide Outstanding;
    if y.worker.Writing? {
      assert Unwritten(y, y.worker.packet.ack);
    }
    if Enabled(y, PurgePacket(healthy)) {
      assert Unwritten(y, y.s.queue[y.closer.next].ack);
    }
  }

  // ---- what senders are told ----

  /** A sender is told, at most once, when its packet is stored or was acked before. */
  lemma NoticesAreTrue(y: System)
    requires Reachable(y)
    ensures Enabled(y, Notify) ==> y.worker.packet.ack in y.s.db || y.worker.packet.ack in y.log.acked
    ensures Enabled(y, Notify) ==> y.worker.packet !in y.log.notified
    ensures forall i, j :: 0 <= i < j < |y.log.notified| ==> y.log.notified[i].ack < y.log.notified[j].ack
  {
    ReachableInv(y);
  }

  /** The step keeps what is recorded, and the rows that nobody acked. */
  lemma StepKeeps(y: System, a: Action)
    requires Inv(y) && Enabled(y, a)
    ensures var z := Apply(y, a);
      && (forall x :: x in y.log.inserted ==> x in z.log.inserted && z.log.inserted[x] == y.log.inserted[x])
      && y.log.acked <= z.log.acked
      && (forall x :: x in y.s.db && x !in y.log.acked ==> x in z.s.db && z.s.db[x] == y.s.db[x])
      && y.log.notified <= z.log.notified
  {
    DeletedWasAcked(y, a);
    FlagsAfter(y, a);
    RecordsStay(y, a);
    RowsStay(y, a);
    hide Apply, Undecided, Outstanding, Inv, Deleting, Acking;
  }

  lemma RecordsStay(y: System, a: Action)
    requires Enabled(y, a) && y.s.sequence + 1 !in y.log.inserted
    ensures var z := Apply(y, a);
      && (forall x :: x in y.log.inserted ==> x in z.log.inserted && z.log.inserted[x] == y.log.inserted[x])
      && y.log.notified <= z.log.notified
  {
  }

  lemma RowsStay(y: System, a: Action)
    requires Phases(y) && Enabled(y, a)
    ensures forall x :: x in y.s.db && x !in Deleting(y, a) ==>
      x in Apply(y, a).s.db && Apply(y, a).s.db[x] == y.s.db[x]
  {
  }

  lemma DeletedWasAcked(y: System, a: Action)
    requires Inv(y) && Enabled(y, a)
    ensures Deleting(y, a) <= y.log.acked
    ensures y.log.inserted.Keys !! {y.s.sequence + 1}
  {
    if a.PurgeRemoval? {
      assert Outstanding(y, y.s.removeQueue[y.closer.next]);
    }
  }

  lemma {:induction false} RunKeeps(ys: seq<System>, actions: seq<Action>, i: nat, j: nat)
    requires IsRun(ys, actions) && Init(ys[0]) && i <= j < |ys|
    ensures forall x :: x in ys[i].log.inserted ==>
      x in ys[j].log.inserted && ys[j].log.inserted[x] == ys[i].log.inserted[x]
    ensures ys[i].log.acked <= ys[j].log.acked
    ensures forall x :: x in ys[i].s.db && x !in ys[j].log.acked ==>
      x in ys[j].s.db && ys[j].s.db[x] == ys[i].s.db[x]
    ensures ys[i].log.notified <= ys[j].log.notified
    decreases j
  {
    hide Inv, Enabled, Apply, Init;
    if i < j {
      RunKeeps(ys, actions, i, j - 1);
      RunInv(ys, actions, j - 1);
      StepKeeps(ys[j - 1], actions[j - 1]);
    }
  }

  /** Once its sender was told, a packet nobody acked is in the database at every later
      moment, through close and purge. */
  lemma NotifiedStaysStored(ys: seq<System>, actions: seq<Action>, i: nat, j: nat, p: Packet)
    requires IsRun(ys, actions) && Init(ys[0]) && i <= j < |ys|
    requires p in ys[i].log.notified && p.ack !in ys[j].log.acked
    ensures p.ack in ys[i].s.db && p.ack in ys[j].s.db && ys[j].s.db[p.ack] == ys[i].s.db[p.ack]
  {
    hide Enabled, Apply, Init, IsRun;
    RunInv(ys, actions, i);
    RunKeeps(ys, actions, i, j);
    hide Inv;
    NotifiedStored(ys[i], p);
  }

  lemma NotifiedStored(y: System, p: Packet)
    requires NoticesTrue(y) && p in y.log.notified && p.ack !in y.log.acked
    ensures p.ack in y.s.db
  {
  }

  // ---- closing ----

  lemma ClosedKeepsAllButDropped(y: System, ack: nat)
    requires Reachable(y) && y.closer.Closed? && y.s.queue == []
    requires ack in y.log.inserted && ack !in y.log.acked && ack !in y.log.failed
    ensures ack in y.s.db <==> ack !in y.log.droppedPackets
  {
    ReachableInv(y);
  }

  /** After close, a packet nobody acked and whose write did not fail is stored exactly if
      no step dropped it. */
  lemma ClosedStoresExactly(ys: seq<System>, actions: seq<Action>, n: nat, ack: nat)
    requires IsRun(ys, actions) && Init(ys[0]) && n <= |actions|
    requires ys[n].closer.Closed? && ys[n].s.queue == []
    requires ack in ys[n].log.inserted && ack !in ys[n].log.acked && ack !in ys[n].log.failed
    ensures ack in ys[n].s.db <==>
      !exists i :: 0 <= i < n && DropsPacketOf(ys[i], actions[i], ack)
  {
    hide Init, Enabled, Apply, DropsPacketOf, Reachable;
    RunIsReachable(ys, actions, n);
    ClosedKeepsAllButDropped(ys[n], ack);
    LossExactly(ys, actions, n, ack);
  }

  lemma ReachableStep(y: System, a: Action)
    requires Reachable(y) && Enabled(y, a)
    ensures Reachable(Apply(y, a))
  {
    hide Enabled, Apply, Init;
    var ys, actions :| IsRun(ys, actions) && Init(ys[0]) && ys[|actions|] == y;
    var zs, more := ys + [Apply(y, a)], actions + [a];
    assert IsRun(zs, more) && zs[|more|] == Apply(y, a) && zs[0] == ys[0];
  }

  lemma ReachableInit(y: System)
    requires Init(y)
    ensures Reachable(y)
  {
    assert IsRun([y], []) && [y][0] == y;
  }

  /** A run of close() that meets at most one packet and one removal still queued: both
      are taken by the last call of next_packet, and neither gets to the database. */
  lemma CloseDropsTheLast(y: System) returns (z: System)
    requires Reachable(y) && y.worker.Idle? && y.closer.Open?
    requires |y.s.queue| <= 1 && |y.s.removeQueue| <= 1
    ensures Reachable(z) && z.closer.Closed? && z.s.queue == [] && z.s.removeQueue == []
    ensures z.s.db == y.s.db && z.log.inserted == y.log.inserted && z.log.notified == y.log.notified
    ensures z.log.acked == y.log.acked && z.log.failed == y.log.failed
  {
    var y1 := y.(s := y.s.(close := true), closer := FlagSet);
    ReachableStep(y, SetClose);
    var y2 := DoNext(y1);
    ReachableStep(y1, Next);
    assert y2.s.queue == [] && y2.s.removeQueue == [];
    var y3 := y2.(worker := Exited);
    ReachableStep(y2, Release);
    hide Reachable;
    z := PurgeOfNothing(y3);
  }

  lemma PurgeOfNothing(y: System) returns (z: System)
    requires Reachable(y) && y.worker.Exited? && y.closer.FlagSet?
    requires y.s.queue == [] && y.s.removeQueue == []
    ensures Reachable(z) && z.closer.Closed? && z.s == y.s
    ensures z.log.inserted == y.log.inserted && z.log.notified == y.log.notified
    ensures z.log.acked == y.log.acked && z.log.failed == y.log.failed
  {
    hide Reachable;
    var y1 := y.(closer := FlushingPackets(0, 0));
    ReachableStep(y, Join);
    var y2 := DoClearPackets(y1);
    ReachableStep(y1, ClearPackets);
    z := DoClearRemovals(y2);
    ReachableStep(y2, ClearRemovals);
  }

  /** close() can lose a packet: one that is still queued when the database thread makes
      its last call of next_packet is neither stored nor is its sender told. */
  lemma CloseCanLosePacket(y: System, insert: Action) returns (z: System)
    requires Init(y) && y.log.start == 0 && y.s.db == map[] && insert.Insert?
    ensures Reachable(z) && z.closer.Closed? && z.s.queue == []
    ensures 1 in z.log.inserted && 1 !in z.log.acked && 1 !in z.log.failed
    ensures 1 !in z.s.db && z.log.notified == []
  {
    ReachableInit(y);
    ReachableStep(y, insert);
    var y1 := DoInsert(y, NewPacket(y, insert));
    hide Reachable;
    z := CloseDropsTheLast(y1);
  }

  /** And it can leave an acked packet in the database: that last call also drops one
      queued removal. */
  lemma CloseCanKeepAcked(y: System, insert: Action) returns (z: System)
    requires Init(y) && y.log.start == 0 && y.s.db == map[] && insert.Insert?
    ensures Reachable(z) && z.closer.Closed? && z.s.removeQueue == []
    ensures 1 in z.log.acked && 1 in z.s.db
  {
    hide Reachable;
    ReachableInit(y);
    ReachableStep(y, insert);
    var y1 := DoInsert(y, NewPacket(y, insert));
    var y2 := StoreOne(y1, NewPacket(y, insert));
    hide Init, DoInsert;
    var y3 := y2.(ackers := y2.ackers[0 := Pushing(1)]);
    ReachableStep(y2, BeginRemove(0, Handle(1, true), false));
    ReachableStep(y3, Push(0));
    z := CloseDropsTheLast(DoPush(y3, 0));
  }

  lemma StoreOne(y: System, p: Packet) returns (z: System)
    requires Reachable(y) && y.worker.Idle? && y.closer.Open? && !y.s.close && y.s.queue == [p]
    requires y.s.removeQueue == [] && y.s.db == map[] && p.ack !in y.s.flags
    ensures Reachable(z) && z.worker.Idle? && z.closer.Open?
    ensures z.s.queue == [] && z.s.removeQueue == [] && p.ack in z.s.db
    ensures z.log.handles == y.log.handles && z.ackers == y.ackers
  {
    hide Reachable;
    var y1 := DoNext(y);
    ReachableStep(y, Next);
    assert y1.s.queue == [] && y1.worker == Popped(p, 0);
    var y2 := DoDecide(y1);
    ReachableStep(y1, Decide);
    var y3 := DoWrite(y2, true);
    ReachableStep(y2, Write(true));
    var y4 := DoNotify(y3);
    ReachableStep(y3, Notify);
    z := y4.(worker := Idle);
    ReachableStep(y4, Release);
  }

  // ---- pending packets ----

  /** What the index gives a reader under the lock: every queued packet of the receiver,
      and no packet the index does not name. */
  ghost predicate Collected(y: System, r: KeyId, found: seq<Stored>) {
    && (forall x :: x in found ==>
        && x.handle.weak && Entry(r, x.handle.ack) in y.s.index
        && x.handle.ack in y.log.inserted && x.payload == y.log.inserted[x.handle.ack].payload)
    && (forall i :: 0 <= i < |y.s.queue| && y.s.queue[i].receiver == r ==> y.s.queue[i].ack in Acks(found))
  }

  /** PacketStorage.CollectPending collects that. */
  lemma CollectPendingCollects(y: System, r: KeyId, found: seq<Stored>)
    requires Reachable(y)
    requires forall x :: x in found ==>
      && x.handle.weak && Entry(r, x.handle.ack) in y.s.index
      && exists p :: p in y.s.queue && p.ack == x.handle.ack && p.payload == x.payload
    requires forall p :: p in y.s.queue && Entry(r, p.ack) in y.s.index ==> p.ack in Acks(found)
    ensures Collected(y, r, found)
  {
    ReachableInv(y);
    assert Contents(y) && Indexed(y);
    hide Inv, Acks;
    forall i | 0 <= i < |y.s.queue| && y.s.queue[i].receiver == r
      ensures y.s.queue[i].ack in Acks(found)
    {
      assert y.s.queue[i] in y.s.queue && EntryOf(y.s.queue[i]) in y.s.index;
    }
  }

  /** What the query for the receiver gives. */
  ghost predicate Selected(db: map<nat, Row>, r: KeyId, rows: seq<Stored>) {
    && (forall x :: x in rows ==>
        !x.handle.weak && x.handle.ack in db && db[x.handle.ack] == Row(r, x.payload))
    && (forall a :: a in db && db[a].receiver == r ==> a in Acks(rows))
  }

  predicate PresentFor(y: System, r: KeyId, ack: nat) {
    || (ack in y.s.db && y.s.db[ack].receiver == r)
    || (InHand(y.worker).Some? && InHand(y.worker).value.ack == ack && InHand(y.worker).value.receiver == r)
    || exists i :: 0 <= i < |y.s.queue| && y.s.queue[i].ack == ack && y.s.queue[i].receiver == r
  }

  /** The index is read at state i and the table at a later state j of any run. Of the
      packets present for the receiver at i that nobody has acked by j, the list can only
      miss the one then in the database thread's hand, and only if it is unwritten at j. */
  lemma PendingMissesAtMostTheOneInHand(
    ys: seq<System>, actions: seq<Action>, i: nat, j: nat,
    r: KeyId, found: seq<Stored>, rows: seq<Stored>, ack: nat)
    requires IsRun(ys, actions) && Init(ys[0]) && i <= j < |ys|
    requires Collected(ys[i], r, found) && Selected(ys[j].s.db, r, rows)
    requires PresentFor(ys[i], r, ack) && ack !in ys[j].log.acked
    ensures ack in Acks(found) + Acks(rows)
      || (InHand(ys[i].worker).Some? && InHand(ys[i].worker).value.ack == ack && ack !in ys[j].s.db)
  {
    hide IsRun, Init, Enabled, Apply;
    RunInv(ys, actions, i);
    RunInv(ys, actions, j);
    RunKeeps(ys, actions, i, j);
    assert Contents(ys[i]) && Contents(ys[j]);
    hide Inv;
  }

  /** Everything in the list is for the receiver, with the payload that was sent. */
  lemma PendingIsForReceiver(
    ys: seq<System>, actions: seq<Action>, i: nat, j: nat,
    r: KeyId, found: seq<Stored>, rows: seq<Stored>, x: Stored)
    requires IsRun(ys, actions) && Init(ys[0]) && i <= j < |ys|
    requires Collected(ys[i], r, found) && Selected(ys[j].s.db, r, rows)
    requires x in found || x in rows
    ensures x.handle.ack in ys[j].log.inserted ==>
      RowOf(ys[j].log.inserted[x.handle.ack]) == Row(r, x.payload)
    ensures x.handle.ack !in ys[j].log.inserted ==>
      x.handle.ack in ys[j].s.db && ys[j].s.db[x.handle.ack] == Row(r, x.payload)
  {
    hide IsRun, Init, Enabled, Apply;
    RunInv(ys, actions, i);
    RunInv(ys, actions, j);
    RunKeeps(ys, actions, i, j);
    assert Contents(ys[j]) && Indexed(ys[i]);
    hide Inv;
  }

  // ---- the database thread by itself ----

  /** Its next step, if the database behaves as `healthy` says. */
  function ThreadStep(w: Worker, healthy: bool): Action {
    match w
    case Idle => Next
    case Popped(_, _) => Decide
    case Writing(_, _) => Write(healthy)
    case Notifying(_, _) => Notify
    case Removing(_, r) => if r == 0 then Release else Delete(healthy)
    case Exiting(_) => Release
    case Exited => Release
  }

  predicate CanStep(y: System) {
    Enabled(y, ThreadStep(y.worker, true)) && Enabled(y, ThreadStep(y.worker, false))
  }

  /** Up to n steps of the database thread alone, until it is back at next_packet. */
  function Alone(y: System, healthy: bool, n: nat): System
    decreases n
  {
    if n == 0 || y.worker.Idle? || !CanStep(y) then y
    else Alone(Apply(y, ThreadStep(y.worker, healthy)), healthy, n - 1)
  }

  /** What the end of a round does: the removal, if there is one. */
  lemma AloneAfterPacket(y: System, healthy: bool, n: nat)
    requires y.worker.Removing? && n >= 2
    ensures var z := Alone(y, healthy, n); var r := y.worker.removal;
      && z.worker == Idle && z.log.notified == y.log.notified
      && z.s == if r == 0 then y.s else y.s.Delete(r, healthy)
  {
    if y.worker.removal != 0 {
      var z := DoDelete(y, healthy);
      assert Alone(z, healthy, n - 1) == Alone(z.(worker := Idle), healthy, n - 2);
    } else {
      assert Alone(y, healthy, n) == Alone(y.(worker := Idle), healthy, n - 1);
    }
  }

  lemma AloneNotifying(y: System, healthy: bool, n: nat)
    requires y.worker.Notifying? && n >= 3
    ensures var z := Alone(y, healthy, n); var r := y.worker.removal;
      && z.worker == Idle && z.log.notified == y.log.notified + [y.worker.packet]
      && z.s == if r == 0 then y.s else y.s.Delete(r, healthy)
  {
    var z := DoNotify(y);
    assert Alone(y, healthy, n) == Alone(z, healthy, n - 1);
    hide Alone;
    AloneAfterPacket(z, healthy, n - 1);
  }

  lemma AlonePopped(y: System, healthy: bool)
    requires y.worker.Popped?
    ensures var z := Alone(y, healthy, 5); var Popped(p, r) := y.worker;
      var stored := if p.ack in y.s.flags then y.s else y.s.TestAndSet(p.ack).Write(p, healthy);
      && z.worker == Idle
      && z.s == (if r == 0 then stored else stored.Delete(r, healthy))
      && z.log.notified ==
           if p.ack in y.s.flags || y.s.CanWrite(p, healthy) then y.log.notified + [p] else y.log.notified
  {
    var Popped(p, r) := y.worker;
    var z := DoDecide(y);
    assert Alone(y, healthy, 5) == Alone(z, healthy, 4);
    if p.ack in y.s.flags {
      assert z.s == y.s;
      hide Alone;
      AloneNotifying(z, healthy, 4);
    } else {
      var z1 := DoWrite(z, healthy);
      assert Alone(z, healthy, 4) == Alone(z1, healthy, 3);
      hide Alone;
      if y.s.CanWrite(p, healthy) {
        AloneNotifying(z1, healthy, 3);
      } else {
        AloneAfterPacket(z1, healthy, 3);
      }
    }
  }

  /** A round nobody interferes with does what PacketStorage.ThreadRound does. */
  lemma RoundIsAlone(y: System, healthy: bool)
    requires Enabled(y, Next) && !y.s.close
    ensures var z := Alone(DoNext(y), healthy, 5);
      && z.worker == Idle && z.s == Round(y.s, healthy)
      && z.log.notified == y.log.notified
           + (if Notice(y.s, healthy).Some? then [Notice(y.s, healthy).value] else [])
  {
    hide Alone;
    if y.s.queue == [] {
      AloneAfterPacket(DoNext(y), healthy, 5);
    } else {
      AlonePopped(DoNext(y), healthy);
    }
  }
}
