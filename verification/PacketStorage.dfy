/** The store of a packet server:
    securepath/infrastructure/packet_transport/server/server_lib/packet_storage.cpp and .hpp.
    One method per critical section or atomic access, each proved against a function on
    Storage; PacketProtocol puts those functions together into a concurrent system. */
module PacketStorage {
  import opened Octets
  import opened Options

  type KeyId = seq<octet>

  type Payload = seq<octet>

  datatype Packet = Packet(receiver: KeyId, payload: Payload, ack: nat, senderAck: nat, sender: KeyId)

  datatype Row = Row(receiver: KeyId, payload: Payload)

  datatype Entry = Entry(receiver: KeyId, ack: nat)

  /** A handle to a packet; weak is false for one made from a database row, which holds
      no pointer to a queued packet. */
  datatype Handle = Handle(ack: nat, weak: bool)

  function RowOf(p: Packet): Row {
    Row(p.receiver, p.payload)
  }

  function EntryOf(p: Packet): Entry {
    Entry(p.receiver, p.ack)
  }

  /** What the threads share. `flags` holds the acks of the packets whose remove_flag is
      set, `db` is the packets table. */
  datatype Storage = Storage(
    queue: seq<Packet>,
    removeQueue: seq<nat>,
    index: set<Entry>,
    sequence: nat,
    close: bool,
    flags: set<nat>,
    db: map<nat, Row>)
  {
    function Insert(p: Packet): Storage {
      this.(sequence := sequence + 1, index := index + {EntryOf(p)}, queue := queue + [p])
    }

    function TestAndSet(ack: nat): Storage {
      this.(flags := flags + {ack})
    }

    function PushRemoval(ack: nat): Storage {
      this.(removeQueue := removeQueue + [ack])
    }

    function NextPacket(): Option<Packet> {
      if queue == [] then None else Some(queue[0])
    }

    /** 0 stands for no removal, as in the source. */
    function NextRemoval(): nat {
      if removeQueue == [] then 0 else removeQueue[0]
    }

    /** Both queues without their heads, the index without the packet taken. */
    function Taken(): Storage {
      this.(queue := if queue == [] then [] else queue[1..],
            removeQueue := if removeQueue == [] then [] else removeQueue[1..],
            index := if queue == [] then index else index - {EntryOf(queue[0])})
    }

    /** Does the insert go through? It needs a working database and a free primary key. */
    predicate CanWrite(p: Packet, healthy: bool) {
      healthy && p.ack !in db
    }

    function Write(p: Packet, healthy: bool): Storage {
      if CanWrite(p, healthy) then this.(db := db[p.ack := RowOf(p)]) else this
    }

    function Delete(ack: nat, healthy: bool): Storage {
      if healthy then this.(db := db - {ack}) else this
    }

    /** One round of the first loop of purge_queues. */
    function PurgePacket(i: nat, healthy: bool): Storage
      requires i < |queue|
    {
      var s := TestAndSet(queue[i].ack);
      if queue[i].ack in flags then s else s.Write(queue[i], healthy)
    }
  }

  class PacketStorage {
    var queue: seq<Packet>
    var removeQueue: seq<nat>
    var receiverIndex: set<Entry>
    var sequence: nat
    var close: bool
    var flags: set<nat>
    var db: map<nat, Row>

    ghost function View(): Storage
      reads this
    {
      Storage(queue, removeQueue, receiverIndex, sequence, close, flags, db)
    }

    /** The sequence goes on from the largest ack stored, which the caller passes in
        (0 for an empty table). */
    constructor (db: map<nat, Row>, maxAck: nat)
      ensures View() == Storage([], [], {}, maxAck, false, {}, db)
    {
      queue, removeQueue, receiverIndex := [], [], {};
      sequence, close, flags := maxAck, false, {};
      this.db := db;
    }

    method Insert(receiver: KeyId, payload: Payload, senderAck: nat, sender: KeyId) returns (h: Handle)
      modifies this
      ensures h == Handle(old(sequence) + 1, true)
      ensures View() == old(View()).Insert(Packet(receiver, payload, h.ack, senderAck, sender))
    {
      sequence := sequence + 1;
      var p := Packet(receiver, payload, sequence, senderAck, sender);
      h := Handle(p.ack, true);
      receiverIndex := receiverIndex + {EntryOf(p)};
      queue := queue + [p];
    }

    /** remove_flag.test_and_set() of the packet with this ack. */
    method TestAndSet(ack: nat) returns (was: bool)
      modifies this`flags
      ensures was <==> ack in old(flags)
      ensures View() == old(View()).TestAndSet(ack)
    {
      was := ack in flags;
      flags := flags + {ack};
    }

    method PushRemoval(ack: nat)
      modifies this`removeQueue
      ensures View() == old(View()).PushRemoval(ack)
    {
      removeQueue := removeQueue + [ack];
    }

    /** remove() when no other thread comes in between; `locked` says that the weak
        pointer still led to the packet. */
    method Remove(ack: nat, locked: bool)
      modifies this
      ensures View() == if !locked then old(View()).PushRemoval(ack)
                        else if ack in old(flags) then old(View()).TestAndSet(ack).PushRemoval(ack)
                        else old(View()).TestAndSet(ack)
    {
      var flag := true;
      if locked {
        flag := TestAndSet(ack);
      }
      if flag {
        PushRemoval(ack);
      }
    }

    /** next_packet once its wait is over. */
    method NextPacket() returns (more: bool, packet: Option<Packet>, removal: nat)
      requires close || queue != [] || removeQueue != []
      modifies this
      ensures View() == old(View()).Taken()
      ensures more == !old(close)
      ensures packet == old(View()).NextPacket() && removal == old(View()).NextRemoval()
    {
      packet, removal := None, 0;
      if queue != [] {
        var p := queue[0];
        packet, queue := Some(p), queue[1..];
        RemoveFromIndex(p.receiver, p.ack);
      }
      if removeQueue != [] {
        removal, removeQueue := removeQueue[0], removeQueue[1..];
      }
      more := !close;
    }

    method RemoveFromIndex(receiver: KeyId, ack: nat)
      modifies this`receiverIndex
      ensures receiverIndex == old(receiverIndex) - {Entry(receiver, ack)}
    {
      if Entry(receiver, ack) in receiverIndex {
        receiverIndex := receiverIndex - {Entry(receiver, ack)};
      }
    }

    /** `healthy` is whether the database carries out the statement. */
    method WriteToDatabase(p: Packet, healthy: bool) returns (ok: bool)
      modifies this`db
      ensures ok == old(View()).CanWrite(p, healthy)
      ensures View() == old(View()).Write(p, healthy)
    {
      ok := false;
      if healthy && p.ack !in db {
        db := db[p.ack := RowOf(p)];
        ok := true;
      }
    }

    method RemoveFromDatabase(ack: nat, healthy: bool)
      modifies this`db
      ensures View() == old(View()).Delete(ack, healthy)
    {
      if healthy {
        db := db - {ack};
      }
    }

    /** The first half of get_pending_packets, under the lock: the packets of a receiver
        that its index entries still lead to. */
    method CollectPending(receiver: KeyId) returns (found: seq<Stored>)
      ensures forall x :: x in found ==>
        && x.handle.weak && Entry(receiver, x.handle.ack) in receiverIndex
        && exists p :: p in queue && p.ack == x.handle.ack && p.payload == x.payload
      ensures forall p :: p in queue && Entry(receiver, p.ack) in receiverIndex ==> p.ack in Acks(found)
    {
      found := [];
      var range := set e | e in receiverIndex && e.receiver == receiver;
      while range != {}
        invariant forall e :: e in range ==> e in receiverIndex && e.receiver == receiver
        invariant forall x :: x in found ==>
          && x.handle.weak && Entry(receiver, x.handle.ack) in receiverIndex
          && exists p :: p in queue && p.ack == x.handle.ack && p.payload == x.payload
        invariant forall p :: p in queue && Entry(receiver, p.ack) in receiverIndex ==>
          p.ack in Acks(found) || Entry(receiver, p.ack) in range
        decreases |range|
      {
        hide Acks;
        var e :| e in range;
        range := range - {e};
        var p := FindQueued(queue, e.ack);
        if p.Some? {
          var x := Stored(Handle(p.value.ack, true), p.value.payload);
          AcksOfExtended(found, x);
          found := found + [x];
        }
      }
    }

    /** One round of thread_entry when no other thread comes in between: the packet
        taken is stored unless it was acked, its sender is told unless storing failed, and
        only then is the removal carried out. */
    method ThreadRound(healthy: bool) returns (more: bool, notice: Option<Packet>)
      requires close || queue != [] || removeQueue != []
      modifies this
      ensures more == !old(close)
      ensures !more ==> View() == old(View()).Taken() && notice == None
      ensures more ==> View() == Round(old(View()), healthy)
      ensures more ==> notice == Notice(old(View()), healthy)
    {
      var packet, removal;
      notice := None;
      more, packet, removal := NextPacket();
      if !more {
        return;
      }
      if packet.Some? {
        var flagged := TestAndSet(packet.value.ack);
        var notify := true;
        if !flagged {
          notify := WriteToDatabase(packet.value, healthy);
        }
        if notify {
          notice := packet;
        }
      }
      if removal != 0 {
        RemoveFromDatabase(removal, healthy);
      }
    }

    /** purge_queues when no other thread comes in between. */
    method PurgeQueues(healthy: bool)
      modifies this
      ensures View() == Purged(old(View()), healthy)
    {
      hide Storage.PurgePacket, Storage.Delete;
      for i := 0 to |queue|
        invariant queue == old(queue) && removeQueue == old(removeQueue)
        invariant View() == PacketsPurged(old(View()), i, healthy)
      {
        PurgeOne(i, healthy);
      }
      queue := [];
      ghost var flushed := View();
      for j := 0 to |removeQueue|
        invariant removeQueue == old(removeQueue)
        invariant View() == RemovalsPurged(flushed, j, healthy)
      {
        RemoveFromDatabase(removeQueue[j], healthy);
      }
      removeQueue := [];
    }

    method PurgeOne(i: nat, healthy: bool)
      requires i < |queue|
      modifies this`flags, this`db
      ensures View() == old(View()).PurgePacket(i, healthy)
    {
      var was := TestAndSet(queue[i].ack);
      if !was {
        var _ := WriteToDatabase(queue[i], healthy);
      }
    }
  }

  /** After i rounds of the first loop of purge_queues. */
  function PacketsPurged(s: Storage, i: nat, healthy: bool): (r: Storage)
    requires i <= |s.queue|
    ensures r == s.(flags := r.flags, db := r.db)
    decreases i
  {
    if i == 0 then s else PacketsPurged(s, i - 1, healthy).PurgePacket(i - 1, healthy)
  }

  /** After j rounds of its second loop. */
  function RemovalsPurged(s: Storage, j: nat, healthy: bool): (r: Storage)
    requires j <= |s.removeQueue|
    ensures r == s.(db := r.db)
    decreases j
  {
    if j == 0 then s else RemovalsPurged(s, j - 1, healthy).Delete(s.removeQueue[j - 1], healthy)
  }

  function Purged(s: Storage, healthy: bool): Storage {
    var flushed := PacketsPurged(s, |s.queue|, healthy).(queue := []);
    RemovalsPurged(flushed, |s.removeQueue|, healthy).(removeQueue := [])
  }

  /** A purge on a working database stores exactly the queued packets nobody acked and
      takes out exactly what the remove queue names. */
  lemma PurgeStoresAndRemoves(s: Storage, a: nat)
    ensures a in Purged(s, true).db <==>
      a !in s.removeQueue
      && (a in s.db || (a !in s.flags && exists p :: p in s.queue && p.ack == a))
    ensures a in Purged(s, true).db && a in s.db ==> Purged(s, true).db[a] == s.db[a]
  {
    hide Purged, PacketsPurged, RemovalsPurged;
    var n, m := |s.queue|, |s.removeQueue|;
    var flushed := PacketsPurged(s, n, true).(queue := []);
    PacketsPurgedDb(s, n, a);
    assert s.queue[..n] == s.queue && s.removeQueue[..m] == s.removeQueue;
    RemovalsPurgedDb(flushed, m, a);
    PurgedIs(s);
  }

  lemma PurgedIs(s: Storage)
    ensures Purged(s, true).db
      == RemovalsPurged(PacketsPurged(s, |s.queue|, true).(queue := []), |s.removeQueue|, true).db
  {
  }

  lemma {:induction false} PacketsPurgedDb(s: Storage, i: nat, a: nat)
    requires i <= |s.queue|
    ensures var r := PacketsPurged(s, i, true);
      && (a in r.flags <==> a in s.flags || exists p :: p in s.queue[..i] && p.ack == a)
      && (a in r.db <==> a in s.db || (a !in s.flags && exists p :: p in s.queue[..i] && p.ack == a))
      && (a in s.db ==> r.db[a] == s.db[a])
    decreases i
  {
    if i > 0 {
      PacketsPurgedDb(s, i - 1, a);
      assert s.queue[..i] == s.queue[..i - 1] + [s.queue[i - 1]];
    }
  }

  lemma {:induction false} RemovalsPurgedDb(s: Storage, j: nat, a: nat)
    requires j <= |s.removeQueue|
    ensures var r := RemovalsPurged(s, j, true);
      (a in r.db <==> a in s.db && a !in s.removeQueue[..j]) && (a in r.db ==> r.db[a] == s.db[a])
    decreases j
  {
    if j > 0 {
      RemovalsPurgedDb(s, j - 1, a);
      assert s.removeQueue[..j] == s.removeQueue[..j - 1] + [s.removeQueue[j - 1]];
    }
  }

  /** The queued packet an index entry points to. */
  function FindQueued(queue: seq<Packet>, ack: nat): (p: Option<Packet>)
    ensures p.Some? ==> p.value in queue && p.value.ack == ack
    ensures p.None? ==> forall q :: q in queue ==> q.ack != ack
    decreases |queue|
  {
    if queue == [] then None else if queue[0].ack == ack then Some(queue[0]) else FindQueued(queue[1..], ack)
  }

  /** What a round of the database thread leaves. */
  function Round(s: Storage, healthy: bool): Storage {
    var taken := s.Taken();
    var stored := match s.NextPacket()
      case None => taken
      case Some(p) =>
        if p.ack in s.flags then taken else taken.TestAndSet(p.ack).Write(p, healthy);
    if s.NextRemoval() == 0 then stored else stored.Delete(s.NextRemoval(), healthy)
  }

  function Notice(s: Storage, healthy: bool): Option<Packet> {
    match s.NextPacket()
    case None => None
    case Some(p) => if p.ack in s.flags || s.CanWrite(p, healthy) then Some(p) else None
  }

  // ---- the list get_pending_packets returns ----

  datatype Stored = Stored(handle: Handle, payload: Payload)

  ghost predicate Ascending(s: seq<Stored>) {
    forall i, j :: 0 <= i < j < |s| ==> s[i].handle.ack <= s[j].handle.ack
  }

  ghost predicate StrictlyAscending(s: seq<Stored>) {
    forall i, j :: 0 <= i < j < |s| ==> s[i].handle.ack < s[j].handle.ack
  }

  function Acks(s: seq<Stored>): set<nat> {
    set x | x in s :: x.handle.ack
  }

  /** std::sort by ack, here as an insertion sort. */
  method SortByAck(s: seq<Stored>) returns (r: seq<Stored>)
    ensures Ascending(r)
    ensures multiset(r) == multiset(s)
  {
    hide Ascending;
    r := [];
    assert Ascending(r) by {
      EmptyAscending();
    }
    for i := 0 to |s|
      invariant Ascending(r)
      invariant multiset(r) == multiset(s[..i])
    {
      r := InsertByAck(r, s[i]);
      assert s[..i + 1] == s[..i] + [s[i]];
    }
    assert s[..|s|] == s;
  }

  lemma EmptyAscending()
    ensures Ascending([])
  {
  }

  method InsertByAck(s: seq<Stored>, x: Stored) returns (r: seq<Stored>)
    requires Ascending(s)
    ensures Ascending(r)
    ensures multiset(r) == multiset(s) + multiset{x}
  {
    var k := 0;
    while k < |s| && s[k].handle.ack <= x.handle.ack
      invariant k <= |s|
      invariant forall j :: 0 <= j < k ==> s[j].handle.ack <= x.handle.ack
    {
      k := k + 1;
    }
    assert s == s[..k] + s[k..];
    r := s[..k] + [x] + s[k..];
  }

  lemma AcksOfExtended(s: seq<Stored>, x: Stored)
    ensures Acks(s + [x]) == Acks(s) + {x.handle.ack}
  {
    forall a | a in Acks(s) + {x.handle.ack}
      ensures a in Acks(s + [x])
    {
      if a == x.handle.ack {
        assert x in s + [x];
      } else {
        var y :| y in s && y.handle.ack == a;
        assert y in s + [x];
      }
    }
  }

  /** std::unique by ack on a sorted list: the first of each run stays. */
  method UniqueByAck(s: seq<Stored>) returns (r: seq<Stored>)
    requires Ascending(s)
    ensures StrictlyAscending(r)
    ensures forall x :: x in r ==> x in s
    ensures Acks(r) == Acks(s)
  {
    hide Acks;
    r := [];
    assert Acks(r) == Acks(s[..0]) by {
      assert s[..0] == [];
    }
    for i := 0 to |s|
      invariant StrictlyAscending(r)
      invariant forall x :: x in r ==> x in s[..i]
      invariant Acks(r) == Acks(s[..i])
      invariant i > 0 ==> r != [] && r[|r| - 1].handle.ack == s[i - 1].handle.ack
      invariant i == 0 ==> r == []
    {
      assert s[..i + 1] == s[..i] + [s[i]];
      AcksOfExtended(s[..i], s[i]);
      if r == [] || r[|r| - 1].handle.ack != s[i].handle.ack {
        AcksOfExtended(r, s[i]);
        r := r + [s[i]];
      } else {
        AckOf(r, |r| - 1);
      }
    }
    assert s[..|s|] == s;
  }

  lemma AckOf(s: seq<Stored>, i: nat)
    requires i < |s|
    ensures s[i].handle.ack in Acks(s)
  {
  }

  lemma SameElements(s: seq<Stored>, r: seq<Stored>)
    requires multiset(s) == multiset(r)
    ensures forall x :: x in s <==> x in r
  {
    forall x
      ensures x in s <==> x in r
    {
      assert x in multiset(s) <==> x in multiset(r);
    }
  }

  /** `found` from the index, `rows` from the table by falling ack: what is returned is
      strictly ascending and has exactly their acks. */
  method MergePending(found: seq<Stored>, rows: seq<Stored>) returns (r: seq<Stored>)
    ensures StrictlyAscending(r)
    ensures Acks(r) == Acks(found) + Acks(rows)
    ensures forall x :: x in r ==> x in found || x in rows
  {
    r := found;
    for i := 0 to |rows|
      invariant forall x :: x in r <==> x in found || x in rows[..i]
    {
      r := [rows[i]] + r;
      assert rows[..i + 1] == rows[..i] + [rows[i]];
    }
    assert rows[..|rows|] == rows;
    var sorted := SortByAck(r);
    SameElements(sorted, r);
    r := UniqueByAck(sorted);
  }
}
