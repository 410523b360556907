/** Write completion and the plaintext buffer of securepath/network/encryption/tls_stream.cpp.
    The TLS library is seen through what it calls back: records to put on the wire, and
    decrypted data. */
module TlsStream {
  import opened Octets
  import opened Options

  datatype Error = ConnectionClosed | OperationInProgress | AlreadyConnected | Failure(code: int)

  /** A record to send, or, with no data, the marker of a write. */
  datatype OutItem = OutItem(data: seq<octet>, handler: Option<nat>, userBytes: nat)

  /** A completion handler posted to the strand. */
  datatype Completion = Completion(id: nat, error: Option<Error>, bytes: nat)

  /** The fields that the write side works on. `posted` holds the completions of writes
      that were accepted, `refused` those of writes that were not; `shutdowns` and
      `handshakes` those of the other handlers. */
  datatype Writer = Writer(
    outQueue: seq<OutItem>, writing: bool, hasChannel: bool, activated: bool, closing: bool, closed: bool,
    peerClosed: bool, error: Option<Error>, handshake: Option<nat>, shutdown: Option<nat>,
    posted: seq<Completion>, refused: seq<Completion>, shutdowns: seq<Completion>, handshakes: seq<Completion>)
  {
    /** The error handed out when there is none of its own. */
    function Reason(): Error {
      if error.Some? then error.value else ConnectionClosed
    }

    /** What a read gets once nothing more will come. */
    function Ending(): Option<Error> {
      if error.Some? then error else if peerClosed then Some(ConnectionClosed) else None
    }

    /** `thrown` when the TLS library cannot be set up. */
    function StartHandshake(id: nat, thrown: Option<Error>): Writer {
      if hasChannel || closed then
        this.(handshakes := handshakes + [Completion(id, Some(AlreadyConnected), 0)])
      else if thrown.Some? then this.(handshake := Some(id)).Fail(thrown.value)
      else this.(handshake := Some(id), hasChannel := true)
    }

    function Activate(): Writer {
      this.(activated := true, handshake := None, handshakes := handshakes + Done(handshake, None))
    }

    function Push(item: OutItem): Writer {
      this.(outQueue := outQueue + [item])
    }

    /** The handler of the front item, if it has one, posted; the item gone. */
    function PopMarker(): Writer
      requires outQueue != []
    {
      var item := outQueue[0];
      this.(outQueue := outQueue[1..],
            posted := if item.handler.None? then posted
                      else posted + [Completion(item.handler.value, error, if error.Some? then 0 else item.userBytes)])
    }

    function CompleteMarkers(): Writer
      decreases |outQueue|
    {
      if outQueue != [] && outQueue[0].data == [] then PopMarker().CompleteMarkers() else this
    }

    function StartWrite(): Writer {
      if writing || closed then this else
        var w := CompleteMarkers();
        if w.outQueue != [] then w.(writing := true)
        else if closing then w.FinishShutdown()
        else w
    }

    function FinishShutdown(): Writer {
      if !closing || writing || outQueue != [] || closed then this
      else this.(closed := peerClosed, shutdown := None, shutdowns := shutdowns + Done(shutdown, None))
    }

    function Emit(data: seq<octet>): Writer {
      Push(OutItem(data, None, 0)).StartWrite()
    }

    function EmitAll(records: seq<seq<octet>>): Writer
      decreases |records|
    {
      if records == [] then this else Emit(records[0]).EmitAll(records[1..])
    }

    predicate Refuses() {
      error.Some? || closed || closing || !activated
    }

    function Refuse(id: nat): Writer {
      this.(refused := refused + [Completion(id, Some(Reason()), 0)])
    }

    /** The library turns the data into records, or throws on the way. */
    function Write(id: nat, bytes: nat, records: seq<seq<octet>>, thrown: Option<Error>): Writer {
      if Refuses() then Refuse(id)
      else if thrown.Some? then EmitAll(records).Fail(thrown.value).Refuse(id)
      else EmitAll(records).Push(OutItem([], Some(id), bytes)).StartWrite()
    }

    function Written(failed: Option<Error>): Writer {
      var w := this.(writing := false);
      if closed then w else
        var v := if outQueue == [] then w else w.(outQueue := outQueue[1..]);
        if failed.Some? then v.Fail(failed.value) else v.StartWrite()
    }

    /** Is it too late for a shutdown? */
    predicate ShutDown() {
      closed || closing || error.Some?
    }

    function Shutdown(id: nat, records: seq<seq<octet>>): Writer {
      if ShutDown() then this.(shutdowns := shutdowns + [Completion(id, Some(Reason()), 0)])
      else
        this.(closing := true, shutdown := Some(id)).EmitAll(records).StartWrite()
    }

    function FailPending(ec: Error): Writer {
      this.(outQueue := [], posted := posted + Failed(outQueue, ec), handshake := None, shutdown := None,
            handshakes := handshakes + Done(handshake, Some(ec)), shutdowns := shutdowns + Done(shutdown, Some(ec)))
    }

    function Fail(ec: Error): Writer {
      if error.Some? || closed then this else this.(error := Some(ec), closed := true).FailPending(ec)
    }

    function Close(): Writer {
      if closed then this
      else this.(closed := true).FailPending(Reason())
    }
  }

  /** The completion of a handler, if there is one. */
  function Done(handler: Option<nat>, error: Option<Error>): seq<Completion> {
    if handler.Some? then [Completion(handler.value, error, 0)] else []
  }

  /** Completions with an error for the handlers in a queue. */
  function Failed(queue: seq<OutItem>, ec: Error): seq<Completion>
    decreases |queue|
  {
    if queue == [] then [] else
      (if queue[0].handler.Some? then [Completion(queue[0].handler.value, Some(ec), 0)] else [])
      + Failed(queue[1..], ec)
  }

  const NEW_WRITER := Writer([], false, false, false, false, false, false, None, None, None, [], [], [], [])

  /** A finished read: an error, or some data. */
  datatype ReadDone = ReadDone(id: nat, error: Option<Error>, data: seq<octet>)

  datatype PendingRead = PendingRead(id: nat, size: nat)

  /** The fields of the read side: decrypted data waiting for the user, the outstanding
      read, and the reads that are over. */
  datatype ReadSide = ReadSide(
    plainIn: seq<octet>, plainPos: nat, pending: Option<PendingRead>, finished: seq<ReadDone>)
  {
    predicate Valid() {
      plainPos <= |plainIn|
    }

    function Waiting(): seq<octet>
      requires Valid()
    {
      plainIn[plainPos..]
    }

    function OnRecord(data: seq<octet>): ReadSide {
      this.(plainIn := plainIn + data)
    }

    function Compact(): ReadSide {
      if plainPos == |plainIn| then this.(plainIn := [], plainPos := 0)
      else if |plainIn| / 2 < plainPos <= |plainIn| then this.(plainIn := plainIn[plainPos..], plainPos := 0)
      else this
    }

    /** The pending read is over. */
    function Finish(error: Option<Error>, data: seq<octet>): ReadSide {
      if pending.None? then this
      else this.(pending := None, finished := finished + [ReadDone(pending.value.id, error, data)])
    }

    /** `ending` is the error of a read for which nothing more will come. */
    function Deliver(ending: Option<Error>): ReadSide {
      if pending.None? then this
      else if plainPos < |plainIn| then
        var available := |plainIn| - plainPos;
        var n := if available < pending.value.size then available else pending.value.size;
        this.(plainPos := plainPos + n).Compact().Finish(None, plainIn[plainPos..plainPos + n])
      else if ending.Some? then Finish(ending, [])
      else this
    }

    function Start(w: Writer, id: nat, size: nat): ReadSide {
      if pending.Some? then this.(finished := finished + [ReadDone(id, Some(OperationInProgress), [])])
      else if w.closed || w.closing then this.(finished := finished + [ReadDone(id, Some(w.Reason()), [])])
      else this.(pending := Some(PendingRead(id, size))).Deliver(w.Ending())
    }

    /** What the failure of the stream does to the pending read. */
    function OnFail(w: Writer, ec: Error): ReadSide {
      if w.error.Some? || w.closed then this else Finish(Some(ec), [])
    }
  }

  const NEW_READ_SIDE := ReadSide([], 0, None, [])

  class TlsStream {
    var outQueue: seq<OutItem>
    var writing: bool
    var hasChannel: bool
    var activated: bool
    var closing: bool
    var closed: bool
    var peerClosed: bool
    var error: Option<Error>
    var handshake: Option<nat>
    var shutdown: Option<nat>
    var posted: seq<Completion>
    var refused: seq<Completion>
    var shutdowns: seq<Completion>
    var handshakes: seq<Completion>
    var plainIn: seq<octet>
    var plainPos: nat
    var pendingRead: Option<PendingRead>
    var finished: seq<ReadDone>

    ghost function View(): Writer
      reads this
    {
      Writer(outQueue, writing, hasChannel, activated, closing, closed, peerClosed, error, handshake, shutdown,
             posted, refused, shutdowns, handshakes)
    }

    ghost function Reads(): ReadSide
      reads this`plainIn, this`plainPos, this`pendingRead, this`finished
    {
      ReadSide(plainIn, plainPos, pendingRead, finished)
    }

    constructor ()
      ensures View() == NEW_WRITER && Reads() == NEW_READ_SIDE
    {
      outQueue, writing, hasChannel, activated, closing, closed, peerClosed := [], false, false, false, false, false, false;
      error, handshake, shutdown, posted, refused, shutdowns, handshakes := None, None, None, [], [], [], [];
      plainIn, plainPos, pendingRead, finished := [], 0, None, [];
    }

    method Reason() returns (ec: Error)
      ensures ec == View().Reason()
    {
      ec := if error.Some? then error.value else ConnectionClosed;
    }

    // ---- the handshake's handler ----

    method AsyncHandshake(id: nat, thrown: Option<Error>)
      modifies this
      ensures View() == old(View()).StartHandshake(id, thrown)
      ensures Reads() == if old(hasChannel || closed) || thrown.None? then old(Reads())
                         else old(Reads()).OnFail(old(View()), thrown.value)
    {
      if hasChannel || closed {
        handshakes := handshakes + [Completion(id, Some(AlreadyConnected), 0)];
        return;
      }
      handshake := Some(id);
      if thrown.Some? {
        Fail(thrown.value);
        return;
      }
      hasChannel := true;
    }

    method OnActivated()
      modifies this`activated, this`handshake, this`handshakes
      ensures View() == old(View()).Activate()
    {
      activated := true;
      if handshake.Some? {
        handshakes := handshakes + [Completion(handshake.value, None, 0)];
        handshake := None;
      }
    }

    // ---- write side ----

    method CompleteWriteMarkers()
      modifies this`outQueue, this`posted
      ensures View() == old(View()).CompleteMarkers()
    {
      while outQueue != [] && outQueue[0].data == []
        invariant View().CompleteMarkers() == old(View()).CompleteMarkers()
        decreases |outQueue|
      {
        var item := outQueue[0];
        outQueue := outQueue[1..];
        if item.handler.Some? {
          posted := posted + [Completion(item.handler.value, error, if error.Some? then 0 else item.userBytes)];
        }
      }
    }

    method StartWrite()
      modifies this`outQueue, this`posted, this`writing, this`closed, this`shutdown, this`shutdowns
      ensures View() == old(View()).StartWrite()
    {
      if writing || closed {
        return;
      }
      CompleteWriteMarkers();
      if outQueue == [] {
        if closing {
          FinishShutdown();
        }
        return;
      }
      writing := true;
    }

    method FinishShutdown()
      modifies this`closed, this`shutdown, this`shutdowns
      ensures View() == old(View()).FinishShutdown()
    {
      if !closing || writing || outQueue != [] || closed {
        return;
      }
      if peerClosed {
        closed := true;
      }
      if shutdown.Some? {
        shutdowns := shutdowns + [Completion(shutdown.value, None, 0)];
        shutdown := None;
      }
    }

    method OnEmit(data: seq<octet>)
      modifies this`outQueue, this`posted, this`writing, this`closed, this`shutdown, this`shutdowns
      ensures View() == old(View()).Emit(data)
    {
      outQueue := outQueue + [OutItem(data, None, 0)];
      StartWrite();
    }

    /** The library calling back for each record it makes. */
    method EmitAll(records: seq<seq<octet>>)
      modifies this`outQueue, this`posted, this`writing, this`closed, this`shutdown, this`shutdowns
      ensures View() == old(View()).EmitAll(records)
    {
      assert records[0..] == records;
      for i := 0 to |records|
        invariant View().EmitAll(records[i..]) == old(View()).EmitAll(records)
      {
        OnEmit(records[i]);
        assert records[i..][1..] == records[i + 1..] && records[i..][0] == records[i];
      }
      assert records[|records|..] == [];
    }

    method DoWrite(id: nat, bytes: nat, records: seq<seq<octet>>, thrown: Option<Error>)
      modifies this
      ensures View() == old(View()).Write(id, bytes, records, thrown)
      ensures Reads() == if old(View()).Refuses() || thrown.None? then old(Reads())
                         else old(Reads()).OnFail(old(View()).EmitAll(records), thrown.value)
    {
      hide Writer.EmitAll, Writer.StartWrite, Writer.Fail, ReadSide.OnFail;
      if error.Some? || closed || closing || !activated {
        Refuse(id);
        return;
      }
      EmitAll(records);
      if thrown.Some? {
        Fail(thrown.value);
        Refuse(id);
        return;
      }
      PushMarker(id, bytes);
    }

    method Refuse(id: nat)
      modifies this`refused
      ensures View() == old(View()).Refuse(id)
    {
      refused := refused + [Completion(id, Some(if error.Some? then error.value else ConnectionClosed), 0)];
    }

    method PushMarker(id: nat, bytes: nat)
      modifies this`outQueue, this`posted, this`writing, this`closed, this`shutdown, this`shutdowns
      ensures View() == old(View()).Push(OutItem([], Some(id), bytes)).StartWrite()
    {
      outQueue := outQueue + [OutItem([], Some(id), bytes)];
      StartWrite();
    }

    method OnWritten(failed: Option<Error>)
      modifies this
      ensures View() == old(View()).Written(failed)
      ensures Reads() == if old(closed) || failed.None? then old(Reads())
                         else old(Reads()).OnFail(old(View()), failed.value)
    {
      writing := false;
      if closed {
        return;
      }
      if outQueue != [] {
        outQueue := outQueue[1..];
      }
      if failed.Some? {
        Fail(failed.value);
        return;
      }
      StartWrite();
    }

    /** `records` is what the library emits for its close_notify. */
    method DoShutdown(id: nat, records: seq<seq<octet>>)
      modifies this
      ensures View() == old(View()).Shutdown(id, records)
      ensures Reads() == if old(View()).ShutDown() then old(Reads())
                         else old(Reads()).Finish(Some(ConnectionClosed), [])
    {
      hide Writer.EmitAll, Writer.StartWrite;
      if closed || closing || error.Some? {
        var ec := Reason();
        shutdowns := shutdowns + [Completion(id, Some(ec), 0)];
        return;
      }
      EndPendingRead(ConnectionClosed);
      closing := true;
      shutdown := Some(id);
      ghost var w := View();
      assert w == old(View()).(closing := true, shutdown := Some(id));
      EmitAndWrite(records);
    }

    method EmitAndWrite(records: seq<seq<octet>>)
      modifies this`outQueue, this`posted, this`writing, this`closed, this`shutdown, this`shutdowns
      ensures View() == old(View()).EmitAll(records).StartWrite()
    {
      hide Writer.EmitAll, Writer.StartWrite;
      EmitAll(records);
      StartWrite();
    }

    method Close()
      modifies this
      ensures View() == old(View()).Close()
      ensures Reads() == if old(closed) then old(Reads()) else old(Reads()).Finish(Some(old(View()).Reason()), [])
    {
      if closed {
        return;
      }
      closed := true;
      var ec := Reason();
      FailPending(ec);
    }

    method Fail(ec: Error)
      modifies this
      ensures View() == old(View()).Fail(ec)
      ensures Reads() == old(Reads()).OnFail(old(View()), ec)
    {
      if error.Some? || closed {
        return;
      }
      error := Some(ec);
      closed := true;
      FailPending(ec);
    }

    method FailPending(ec: Error)
      modifies this`pendingRead, this`finished, this`outQueue, this`posted
      modifies this`handshake, this`handshakes, this`shutdown, this`shutdowns
      ensures View() == old(View()).FailPending(ec)
      ensures Reads() == old(Reads()).Finish(Some(ec), [])
    {
      hide Failed, Done, ReadSide.Finish;
      EndPendingRead(ec);
      ghost var w := View();
      FailHandlers(ec);
      FailQueue(ec);
      assert View() == w.FailPending(ec);
    }

    method EndPendingRead(ec: Error)
      modifies this`pendingRead, this`finished
      ensures Reads() == old(Reads()).Finish(Some(ec), [])
    {
      if pendingRead.Some? {
        finished := finished + [ReadDone(pendingRead.value.id, Some(ec), [])];
        pendingRead := None;
      }
    }

    method FailHandlers(ec: Error)
      modifies this`handshake, this`handshakes, this`shutdown, this`shutdowns
      ensures handshake == None && handshakes == old(handshakes) + Done(old(handshake), Some(ec))
      ensures shutdown == None && shutdowns == old(shutdowns) + Done(old(shutdown), Some(ec))
    {
      if handshake.Some? {
        handshakes := handshakes + [Completion(handshake.value, Some(ec), 0)];
        handshake := None;
      }
      if shutdown.Some? {
        shutdowns := shutdowns + [Completion(shutdown.value, Some(ec), 0)];
        shutdown := None;
      }
    }

    method FailQueue(ec: Error)
      modifies this`outQueue, this`posted
      ensures outQueue == [] && posted == old(posted) + Failed(old(outQueue), ec)
    {
      var queue := outQueue;
      outQueue := [];
      PostFailed(queue, ec);
    }

    method PostFailed(queue: seq<OutItem>, ec: Error)
      modifies this`posted
      ensures posted == old(posted) + Failed(queue, ec)
    {
      ghost var all := posted + Failed(queue, ec);
      assert queue[0..] == queue;
      for i := 0 to |queue|
        invariant posted + Failed(queue[i..], ec) == all
      {
        var item := queue[i];
        assert queue[i..][0] == item && queue[i..][1..] == queue[i + 1..];
        ghost var was, later := posted, Failed(queue[i + 1..], ec);
        if item.handler.Some? {
          posted := posted + [Completion(item.handler.value, Some(ec), 0)];
          assert was + ([Completion(item.handler.value, Some(ec), 0)] + later) == posted + later;
        } else {
          assert [] + later == later;
        }
      }
      assert Failed(queue[|queue|..], ec) == [] && posted + [] == posted;
    }

    // ---- read side ----

    method OnRecord(data: seq<octet>)
      modifies this`plainIn
      ensures Reads() == old(Reads()).OnRecord(data)
    {
      plainIn := plainIn + data;
    }

    method CompactPlainIn()
      requires Reads().Valid()
      modifies this`plainIn, this`plainPos
      ensures Reads() == old(Reads()).Compact()
    {
      if plainPos == |plainIn| {
        plainIn := [];
        plainPos := 0;
      } else if plainPos > |plainIn| / 2 {
        plainIn := plainIn[plainPos..];
        plainPos := 0;
      }
    }

    /** One outstanding read at a time. */
    method DoReadSome(id: nat, size: nat)
      requires Reads().Valid()
      modifies this`pendingRead, this`finished, this`plainIn, this`plainPos
      ensures Reads() == old(Reads()).Start(View(), id, size)
    {
      if pendingRead.Some? {
        finished := finished + [ReadDone(id, Some(OperationInProgress), [])];
        return;
      }
      if closed || closing {
        var ec := Reason();
        finished := finished + [ReadDone(id, Some(ec), [])];
        return;
      }
      pendingRead := Some(PendingRead(id, size));
      DeliverRead();
    }

    method DeliverRead()
      requires Reads().Valid()
      modifies this`pendingRead, this`finished, this`plainIn, this`plainPos
      ensures Reads() == old(Reads()).Deliver(View().Ending())
    {
      if pendingRead.None? {
        return;
      }
      var available := |plainIn| - plainPos;
      if available > 0 {
        var n := if available < pendingRead.value.size then available else pendingRead.value.size;
        var data := plainIn[plainPos..plainPos + n];
        plainPos := plainPos + n;
        CompactPlainIn();
        finished := finished + [ReadDone(pendingRead.value.id, None, data)];
        pendingRead := None;
      } else if error.Some? || peerClosed {
        finished := finished
          + [ReadDone(pendingRead.value.id, Some(if error.Some? then error.value else ConnectionClosed), [])];
        pendingRead := None;
      }
    }
  }

  /** Shifting the buffer never touches what waits. */
  lemma CompactKeepsWaiting(r: ReadSide)
    requires r.Valid()
    ensures r.Compact().Valid() && r.Compact().Waiting() == r.Waiting()
    ensures r.Compact().plainPos <= |r.Compact().plainIn| / 2
  {
  }

  /** How much a delivery hands over. */
  function Portion(waiting: seq<octet>, size: nat): (n: nat)
    ensures n <= |waiting| && n <= size
    ensures waiting != [] && size > 0 ==> n > 0
  {
    if |waiting| < size then |waiting| else size
  }

  /** A delivery hands the pending read the front of what waits, at least one octet if it
      asks for any and never more than it asks for; what is left waits on. */
  lemma DeliverGives(r: ReadSide, ending: Option<Error>)
    requires r.Valid() && r.pending.Some? && r.Waiting() != []
    ensures var n := Portion(r.Waiting(), r.pending.value.size);
      && r.Deliver(ending).Valid()
      && r.Deliver(ending).pending == None && r.Deliver(ending).Waiting() == r.Waiting()[n..]
      && r.Deliver(ending).finished == r.finished + [ReadDone(r.pending.value.id, None, r.Waiting()[..n])]
  {
    var n := Portion(r.Waiting(), r.pending.value.size);
    var moved := r.(plainPos := r.plainPos + n);
    CompactKeepsWaiting(moved);
    assert r.plainIn[r.plainPos..r.plainPos + n] == r.Waiting()[..n];
    assert moved.Waiting() == r.Waiting()[n..];
    hide ReadSide.Compact;
  }
}
