/** What each call on a tls_stream is answered with, told by its state, over whole runs. */
module TlsCalls {
  import opened Octets
  import opened Options
  import opened TlsStream
  import opened TlsWrites
  import TlsReads

  /** The stream carries application data: the handshake is over and nothing has ended it. */
  predicate Open(w: Writer) {
    w.activated && w.error.None? && !w.closing && !w.closed
  }

  // ---- parts that do not concern the calls ----

  /** The fields that queueing and sending leave alone. */
  predicate SameCalls(w: Writer, v: Writer) {
    && v.activated == w.activated && v.closing == w.closing && v.error == w.error && v.hasChannel == w.hasChannel
    && v.refused == w.refused && v.handshake == w.handshake && v.handshakes == w.handshakes
    && v.peerClosed == w.peerClosed
  }

  lemma StartWriteSame(w: Writer)
    ensures SameCalls(w, w.StartWrite())
  {
    CompleteMarkersFrame(w);
  }

  lemma {:induction false} EmitAllSame(w: Writer, records: seq<seq<octet>>)
    ensures SameCalls(w, w.EmitAll(records))
    decreases |records|
  {
    if records != [] {
      StartWriteSame(w.Push(OutItem(records[0], None, 0)));
      EmitAllSame(w.Emit(records[0]), records[1..]);
    }
  }

  // ---- writes ----

  /** A write is accepted exactly on an open stream, when the library does not throw; else it
      is refused with the stream's error, that of the library, or connection_closed. */
  lemma WriteAnsweredExactly(ss: seq<Session>, actions: seq<Action>, i: nat)
    requires IsRun(ss, actions) && i < |actions| && actions[i].Write?
    ensures var (s, t, a) := (ss[i], ss[i + 1], actions[i]);
      if Open(s.w) && a.thrown.None? then
        t.log.accepted == s.log.accepted + [a.id] && t.w.refused == s.w.refused
      else
        && t.log.accepted == s.log.accepted
        && t.w.refused == s.w.refused + [Completion(a.id, Some(
             if Open(s.w) then a.thrown.value else if s.w.error.Some? then s.w.error.value else ConnectionClosed), 0)]
        && (Open(s.w) ==> t.w.closed && t.w.error == a.thrown)
        && (!Open(s.w) ==> t.log == s.log && t.w == s.w.(refused := t.w.refused))
  {
    var (s, a) := (ss[i], actions[i]);
    RunInv(ss, actions, i);
    EmittedAllKept(s, a.records);
    EmitAllSame(s.w, a.records);
    var w := s.w.EmitAll(a.records);
    if Open(s.w) {
      EmitAllStaysOpen(s.w, a.records);
      StartWriteSame(w.Push(OutItem([], Some(a.id), a.bytes)));
    }
    hide Inv, Writer.EmitAll, Writer.StartWrite, EmittedAll;
  }

  /** The stream is activated exactly if the library has said so. */
  lemma {:induction false} ActivatedExactly(ss: seq<Session>, actions: seq<Action>, i: nat)
    requires IsRun(ss, actions) && i < |ss|
    ensures ss[i].w.activated <==> exists k :: 0 <= k < i && actions[k] == Activate
    decreases i
  {
    hide Apply;
    if i > 0 {
      ActivatedExactly(ss, actions, i - 1);
      ActivatedStep(ss[i - 1], actions[i - 1]);
    }
  }

  lemma ActivatedStep(s: Session, a: Action)
    ensures Apply(s, a).w.activated <==> s.w.activated || a == Activate
  {
    ApplyIsWriter(s, a);
    match a
    case Emit(data) => StartWriteSame(s.w.Push(OutItem(data, None, 0)));
    case Write(id, bytes, records, thrown) => WriteKeepsActivated(s.w, id, bytes, records, thrown);
    case Written(_) => StartWriteSame(TlsReads.WrittenOut(s.w));
    case Shutdown(id, records) => ShutdownKeepsActivated(s.w, id, records);
    case _ =>
    hide Writer.EmitAll, Writer.StartWrite, Writer.Write, Writer.Shutdown, EmittedAll;
  }

  lemma WriteKeepsActivated(w: Writer, id: nat, bytes: nat, records: seq<seq<octet>>, thrown: Option<Error>)
    ensures w.Write(id, bytes, records, thrown).activated == w.activated
  {
    EmitAllSame(w, records);
    StartWriteSame(w.EmitAll(records).Push(OutItem([], Some(id), bytes)));
    hide Writer.EmitAll, Writer.StartWrite;
  }

  lemma ShutdownKeepsActivated(w: Writer, id: nat, records: seq<seq<octet>>)
    ensures w.Shutdown(id, records).activated == w.activated
  {
    var v := w.(closing := true, shutdown := Some(id));
    EmitAllSame(v, records);
    StartWriteSame(v.EmitAll(records));
    hide Writer.EmitAll, Writer.StartWrite;
  }

  // ---- handshake and shutdown ----

  /** A handshake is refused exactly if there was one or the stream is closed; it fails with
      the library's error, or its handler is kept. */
  lemma HandshakeAnsweredExactly(ss: seq<Session>, actions: seq<Action>, i: nat)
    requires IsRun(ss, actions) && i < |actions| && actions[i].Handshake?
    ensures var (w, v, a) := (ss[i].w, ss[i + 1].w, actions[i]);
      if w.hasChannel || w.closed then v == w.(handshakes := w.handshakes + [Completion(a.id, Some(AlreadyConnected), 0)])
      else if a.thrown.Some? then
        v.handshakes == w.handshakes + [Completion(a.id, a.thrown, 0)] && v.error == a.thrown && v.closed && !v.hasChannel
      else v == w.(handshake := Some(a.id), hasChannel := true)
  {
    RunInv(ss, actions, i);
  }

  /** The end of the handshake tells its handler, if there is one, and nobody else. */
  lemma ActivationExactly(s: Session)
    ensures var (w, v) := (s.w, Apply(s, Activate).w);
      && v == w.(activated := true, handshake := None, handshakes := v.handshakes)
      && v.handshakes == if w.handshake.Some? then w.handshakes + [Completion(w.handshake.value, None, 0)] else w.handshakes
  {
    assert s.w.handshakes + [] == s.w.handshakes;
  }

  /** The first failure closes the stream for good, and tells everyone: the handshake, each
      write in the queue, in order, and the shutdown. */
  lemma FailTellsAll(w: Writer, ec: Error)
    ensures var v := w.Fail(ec);
      if w.closed || w.error.Some? then v == w
      else
        && v.closed && v.error == Some(ec) && v.outQueue == [] && v.handshake == None && v.shutdown == None
        && v.handshakes == (if w.handshake.Some? then w.handshakes + [Completion(w.handshake.value, Some(ec), 0)]
                            else w.handshakes)
        && v.shutdowns == (if w.shutdown.Some? then w.shutdowns + [Completion(w.shutdown.value, Some(ec), 0)]
                           else w.shutdowns)
        && w.posted <= v.posted && Ids(v.posted) == Ids(w.posted) + Markers(w.outQueue)
        && (forall k :: |w.posted| <= k < |v.posted| ==> v.posted[k].error == Some(ec) && v.posted[k].bytes == 0)
  {
    FailedIds(w.outQueue, ec);
    FailedAnswers(w.outQueue, ec);
    IdsConcat(w.posted, Failed(w.outQueue, ec));
    assert w.handshakes + [] == w.handshakes && w.shutdowns + [] == w.shutdowns;
  }

  /** What sending may do to the shutdown under way: nothing, or complete it. */
  predicate MayComplete(w: Writer, v: Writer) {
    || (v.shutdown == w.shutdown && v.shutdowns == w.shutdowns)
    || (v.shutdown == None && w.shutdown.Some? && v.shutdowns == w.shutdowns + [Completion(w.shutdown.value, None, 0)])
  }

  lemma StartWriteMayComplete(w: Writer)
    ensures MayComplete(w, w.StartWrite())
  {
    CompleteMarkersFrame(w);
    assert w.shutdowns + [] == w.shutdowns;
  }

  lemma {:induction false} EmitAllMayComplete(w: Writer, records: seq<seq<octet>>)
    ensures MayComplete(w, w.EmitAll(records))
    decreases |records|
  {
    if records != [] {
      StartWriteMayComplete(w.Push(OutItem(records[0], None, 0)));
      EmitAllMayComplete(w.Emit(records[0]), records[1..]);
      hide Writer.StartWrite;
    }
  }

  /** A shutdown is refused exactly on a stream that has ended or is ending; else the stream
      is closing, and the handler waits or has been told that all went out. */
  lemma ShutdownAnsweredExactly(ss: seq<Session>, actions: seq<Action>, i: nat)
    requires IsRun(ss, actions) && i < |actions| && actions[i].Shutdown?
    ensures var (w, v, id) := (ss[i].w, ss[i + 1].w, actions[i].id);
      if w.closed || w.closing || w.error.Some? then
        v == w.(shutdowns := w.shutdowns
                  + [Completion(id, Some(if w.error.Some? then w.error.value else ConnectionClosed), 0)])
      else
        v.closing && v.error.None?
        && ((v.shutdown == Some(id) && v.shutdowns == w.shutdowns)
            || (v.shutdown == None && v.shutdowns == w.shutdowns + [Completion(id, None, 0)]))
  {
    var (s, a) := (ss[i], actions[i]);
    ApplyIsWriter(s, a);
    var v := s.w.(closing := true, shutdown := Some(a.id));
    EmitAllSame(v, a.records);
    StartWriteSame(v.EmitAll(a.records));
    EmitAllMayComplete(v, a.records);
    StartWriteMayComplete(v.EmitAll(a.records));
    hide Writer.EmitAll, Writer.StartWrite;
  }

  /** A closing stream with nothing left to send has told its shutdown handler. */
  predicate ShutdownTold(w: Writer) {
    w.closing && !w.closed && !w.writing && w.outQueue == [] ==> w.shutdown == None
  }

  lemma StartWriteTells(w: Writer)
    ensures ShutdownTold(w.StartWrite())
  {
    CompleteMarkersFrame(w);
  }

  lemma {:induction false} EmitAllTells(w: Writer, records: seq<seq<octet>>)
    requires ShutdownTold(w)
    ensures ShutdownTold(w.EmitAll(records))
    decreases |records|
  {
    if records != [] {
      StartWriteTells(w.Push(OutItem(records[0], None, 0)));
      EmitAllTells(w.Emit(records[0]), records[1..]);
      hide Writer.StartWrite;
    }
  }

  lemma ToldStep(s: Session, a: Action)
    requires ShutdownTold(s.w) && (s.w.error.Some? ==> s.w.closed)
    ensures ShutdownTold(Apply(s, a).w)
  {
    ApplyIsWriter(s, a);
    match a
    case Emit(data) => StartWriteTells(s.w.Push(OutItem(data, None, 0)));
    case Write(id, bytes, records, thrown) => WriteTells(s.w, id, bytes, records, thrown);
    case Written(failed) => WrittenTells(s.w, failed);
    case Shutdown(id, records) =>
      StartWriteTells(s.w.(closing := true, shutdown := Some(id)).EmitAll(records));
    case _ =>
    hide Writer.EmitAll, Writer.StartWrite, Writer.Write, Writer.Written, EmittedAll;
  }

  lemma WrittenTells(w: Writer, failed: Option<Error>)
    requires ShutdownTold(w) && (w.error.Some? ==> w.closed)
    ensures ShutdownTold(w.Written(failed))
  {
    StartWriteTells(TlsReads.WrittenOut(w));
    hide Writer.StartWrite;
  }

  lemma WriteTells(w: Writer, id: nat, bytes: nat, records: seq<seq<octet>>, thrown: Option<Error>)
    requires ShutdownTold(w)
    ensures ShutdownTold(w.Write(id, bytes, records, thrown))
  {
    EmitAllTells(w, records);
    StartWriteTells(w.EmitAll(records).Push(OutItem([], Some(id), bytes)));
    hide Writer.EmitAll, Writer.StartWrite;
  }

  lemma DrainedShutdownIsTold(ss: seq<Session>, actions: seq<Action>, i: nat)
    requires IsRun(ss, actions) && i < |ss|
    requires ss[i].w.closing && !ss[i].w.closed && !ss[i].w.writing && ss[i].w.outQueue == []
    ensures ss[i].w.shutdown == None
  {
    AlwaysTold(ss, actions, i);
  }

  lemma {:induction false} AlwaysTold(ss: seq<Session>, actions: seq<Action>, i: nat)
    requires IsRun(ss, actions) && i < |ss|
    ensures ShutdownTold(ss[i].w)
    decreases i
  {
    hide Enabled, Apply, Inv;
    if i > 0 {
      AlwaysTold(ss, actions, i - 1);
      RunInv(ss, actions, i - 1);
      if !ss[i - 1].w.closed {
        TlsReads.OpenHasNoError(ss[i - 1]);
      }
      ToldStep(ss[i - 1], actions[i - 1]);
    }
  }

  // ---- success of a shutdown ----

  /** Everything emitted is on the wire, and the socket is closed if the peer has ended too. */
  predicate AllOut(s: Session) {
    && s.w.outQueue == [] && !s.w.writing && s.log.written == s.log.emitted
    && s.w.closing && s.w.closed == s.w.peerClosed
  }

  /** The end of the input closes the socket exactly after a shutdown that has nothing left
      to send. */
  lemma EndOfFileExactly(s: Session)
    ensures var (w, v) := (s.w, Apply(s, EndOfFile).w);
      && v.peerClosed && v.outQueue == w.outQueue && v.posted == w.posted
      && (v.closed <==> w.closed || (w.closing && !w.writing && w.outQueue == []))
  {
  }

  lemma StartWriteCompletes(s: Session)
    requires Inv(s)
    ensures var t := s.(w := s.w.StartWrite()); t.w.shutdowns != s.w.shutdowns ==> AllOut(t)
  {
    if !s.w.writing && !s.w.closed {
      CompleteMarkersKept(s);
      var t := s.(w := s.w.CompleteMarkers());
      hide Writer.CompleteMarkers;
      if t.w.outQueue == [] {
        assert Records(t.w.outQueue) == [] && t.log.written + [] == t.log.written;
      }
    }
  }

  /** The library's records are not empty, so a record just queued keeps the queue from
      being drained. */
  lemma {:induction false} EmitAllWaits(w: Writer, records: seq<seq<octet>>)
    requires forall k :: 0 <= k < |records| ==> records[k] != []
    ensures w.EmitAll(records).shutdown == w.shutdown && w.EmitAll(records).shutdowns == w.shutdowns
    decreases |records|
  {
    if records != [] {
      EmitWaits(w, records[0]);
      EmitAllWaits(w.Emit(records[0]), records[1..]);
    }
  }

  lemma EmitWaits(w: Writer, data: seq<octet>)
    requires data != []
    ensures w.Emit(data).shutdown == w.shutdown && w.Emit(data).shutdowns == w.shutdowns
  {
    var v := w.Push(OutItem(data, None, 0));
    CompleteMarkersFrame(v);
    RecordStays(v, data);
  }

  lemma {:induction false} RecordStays(w: Writer, data: seq<octet>)
    requires w.outQueue != [] && w.outQueue[|w.outQueue| - 1].data == data != []
    ensures w.CompleteMarkers().outQueue != []
    decreases |w.outQueue|
  {
    if w.outQueue[0].data == [] {
      RecordStays(w.PopMarker(), data);
    }
  }

  predicate Completes(w: Writer, v: Writer, id: nat) {
    v.shutdowns == w.shutdowns + [Completion(id, None, 0)]
  }

  /** A failure completes no shutdown with success. */
  lemma FailCompletesNone(w: Writer, ec: Error, id: nat)
    ensures !Completes(w, w.Fail(ec), id)
  {
    assert w.shutdowns + [Completion(id, None, 0)] != w.shutdowns;
    assert |w.shutdowns + [Completion(id, None, 0)]| == |w.shutdowns| + 1;
    assert (w.shutdowns + [Completion(id, None, 0)])[|w.shutdowns|].error == None;
  }

  /** Nor does anything before the stream is closing. */
  lemma {:induction false} EmitAllCompletesNone(w: Writer, records: seq<seq<octet>>)
    requires !w.closing && !w.closed
    ensures w.EmitAll(records).shutdowns == w.shutdowns && !w.EmitAll(records).closing
    decreases |records|
  {
    if records != [] {
      CompleteMarkersFrame(w.Push(OutItem(records[0], None, 0)));
      EmitAllCompletesNone(w.Emit(records[0]), records[1..]);
    }
  }

  lemma WriteCompletesNone(w: Writer, a: Action, id: nat)
    requires a.Write?
    ensures !Completes(w, w.Write(a.id, a.bytes, a.records, a.thrown), id)
  {
    assert |w.shutdowns + [Completion(id, None, 0)]| == |w.shutdowns| + 1;
    if !w.Refuses() {
      var v := w.EmitAll(a.records);
      EmitAllCompletesNone(w, a.records);
      if a.thrown.Some? {
        FailCompletesNone(v, a.thrown.value, id);
      }
      CompleteMarkersFrame(v.Push(OutItem([], Some(a.id), a.bytes)));
      hide Writer.EmitAll, Writer.CompleteMarkers, Writer.Fail;
    }
  }

  lemma WrittenCompletes(s: Session, failed: Option<Error>, id: nat)
    requires Inv(s) && s.w.writing && Completes(s.w, Apply(s, Written(failed)).w, id)
    ensures var t := Apply(s, Written(failed)); AllOut(t)
  {
    assert |s.w.shutdowns + [Completion(id, None, 0)]| == |s.w.shutdowns| + 1;
    if !s.w.closed {
      assert s.w.outQueue != [];
      if failed.Some? {
        FailCompletesNone(GoneOut(s).w, failed.value, id);
      } else {
        GoneOutKept(s);
        StartWriteCompletes(GoneOut(s));
      }
      hide Inv, Writer.StartWrite, Writer.Fail;
    }
  }

  lemma ShutdownCompletes(s: Session, a: Action, id: nat)
    requires Inv(s) && a.Shutdown? && Completes(s.w, Apply(s, a).w, id)
    requires forall k :: 0 <= k < |a.records| ==> a.records[k] != []
    ensures var t := Apply(s, a); AllOut(t)
  {
    assert Apply(s, a).w.shutdowns[|s.w.shutdowns|].error == None;
    if !s.w.ShutDown() {
      var v := s.(w := s.w.(closing := true, shutdown := Some(a.id)));
      ClosingKept(s, a.id);
      EmittedAllKept(v, a.records);
      EmitAllWaits(v.w, a.records);
      StartWriteCompletes(EmittedAll(v, a.records));
      assert |s.w.shutdowns + [Completion(id, None, 0)]| == |s.w.shutdowns| + 1;
      hide Inv, Writer.StartWrite, Writer.EmitAll, EmittedAll;
    }
  }

  lemma EmitCompletes(s: Session, data: seq<octet>, id: nat)
    requires Inv(s) && Completes(s.w, Emitted(s, data).w, id)
    ensures AllOut(Emitted(s, data))
  {
    PushRecordKept(s, data);
    StartWriteCompletes(Session(s.w.Push(OutItem(data, None, 0)), Emitted(s, data).log));
    assert |s.w.shutdowns + [Completion(id, None, 0)]| == |s.w.shutdowns| + 1;
    hide Inv, Writer.StartWrite;
  }

  lemma EndOfFileCompletes(s: Session, id: nat)
    requires Inv(s) && Completes(s.w, Apply(s, EndOfFile).w, id)
    ensures var t := Apply(s, EndOfFile); AllOut(t)
  {
    assert |s.w.shutdowns + [Completion(id, None, 0)]| == |s.w.shutdowns| + 1;
    assert s.log.written + [] == s.log.written;
  }

  lemma OthersCompleteNone(s: Session, a: Action, id: nat)
    requires a.Handshake? || a.Activate? || a.Alert? || a.Fail? || a.Close?
    ensures !Completes(s.w, Apply(s, a).w, id)
  {
    assert |s.w.shutdowns + [Completion(id, None, 0)]| == |s.w.shutdowns| + 1;
    assert (s.w.shutdowns + [Completion(id, None, 0)])[|s.w.shutdowns|].error == None;
  }

  /** A shutdown succeeds only when everything emitted, for all writes and for the close
      itself, has gone out. */
  lemma ShutdownMeansWritten(ss: seq<Session>, actions: seq<Action>, i: nat, id: nat)
    requires IsRun(ss, actions) && i < |actions|
    requires actions[i].Shutdown? ==> forall k :: 0 <= k < |actions[i].records| ==> actions[i].records[k] != []
    requires ss[i + 1].w.shutdowns == ss[i].w.shutdowns + [Completion(id, None, 0)]
    ensures AllOut(ss[i + 1])
  {
    var (s, a) := (ss[i], actions[i]);
    RunInv(ss, actions, i);
    ApplyIsWriter(s, a);
    hide Inv, Writer.Write, Writer.Shutdown, AllOut;
    match a
    case Emit(data) => EmitCompletes(s, data, id);
    case Written(failed) => WrittenCompletes(s, failed, id);
    case Shutdown(_, _) => ShutdownCompletes(s, a, id);
    case EndOfFile => EndOfFileCompletes(s, id);
    case Write(_, _, _, _) => WriteCompletesNone(s.w, a, id);
    case _ => OthersCompleteNone(s, a, id);
  }

  // ---- reads ----

  /** A read is refused while there is another or once the stream is closing; else it gets
      what waits, up to the size it asks for, or the reason why nothing more will come, or
      it is kept. */
  lemma ReadAnsweredExactly(y: TlsReads.Stream, id: nat, size: nat)
    requires TlsReads.Inv(y)
    ensures var (r, q, w) := (y.r, TlsReads.Apply(y, TlsReads.Read(id, size)).r, y.s.w);
      var reason := if w.error.Some? then w.error.value else ConnectionClosed;
      if r.pending.Some? then q == r.(finished := r.finished + [ReadDone(id, Some(OperationInProgress), [])])
      else if w.closed || w.closing then q == r.(finished := r.finished + [ReadDone(id, Some(reason), [])])
      else if r.Waiting() != [] then
        var n := if |r.Waiting()| < size then |r.Waiting()| else size;
        q.Valid() && q.pending == None && q.Waiting() == r.Waiting()[n..]
        && q.finished == r.finished + [ReadDone(id, None, r.Waiting()[..n])]
      else if w.error.Some? || w.peerClosed then q == r.(finished := r.finished + [ReadDone(id, Some(reason), [])])
      else q == r.(pending := Some(PendingRead(id, size)))
  {
    var w := y.s.w;
    if y.r.pending.None? && !w.closed && !w.closing && y.r.Waiting() != [] {
      DeliverGives(y.r.(pending := Some(PendingRead(id, size))), w.Ending());
    }
    hide ReadSide.Compact;
  }

  /** The pending read goes on, or has got what waits, up to the size it asked for, or the
      stream's error, or connection_closed when there is none. */
  predicate ReadTrulyEnds(r: ReadSide, q: ReadSide, w: Writer)
    requires r.Valid() && r.pending.Some?
  {
    var id, size := r.pending.value.id, r.pending.value.size;
    var n := if |r.Waiting()| < size then |r.Waiting()| else size;
    || (q.pending == r.pending && q.finished == r.finished)
    || (q.pending == None && r.Waiting() != [] && q.finished == r.finished + [ReadDone(id, None, r.Waiting()[..n])])
    || (q.pending == None && q.finished == r.finished
          + [ReadDone(id, Some(if w.error.Some? then w.error.value else ConnectionClosed), [])])
  }

  lemma FinishTruly(r: ReadSide, w: Writer)
    requires r.Valid() && r.pending.Some?
    ensures ReadTrulyEnds(r, r.Finish(Some(w.Reason()), []), w) && ReadTrulyEnds(r, r, w)
  {
  }

  lemma DeliverTruly(r: ReadSide, w: Writer)
    requires r.Valid() && r.pending.Some?
    ensures ReadTrulyEnds(r, r.Deliver(w.Ending()), w)
  {
    if r.Waiting() != [] {
      DeliverGives(r, w.Ending());
    }
    hide ReadSide.Compact;
  }

  /** Whatever the write side does to the pending read is one of these. */
  lemma SideEndsReadTruly(y: TlsReads.Stream, b: Action)
    requires TlsReads.FullInv(y) && Enabled(y.s, b) && y.r.pending.Some?
    ensures ReadTrulyEnds(y.r, TlsReads.Apply(y, TlsReads.Side(b)).r, Apply(y.s, b).w)
  {
    var (w, r) := (y.s.w, y.r);
    assert w.error.Some? ==> w.closed;
    assert r.Valid() && !w.closed && !w.closing;
    hide TlsReads.FullInv;
    ApplyIsWriter(y.s, b);
    var v := Apply(y.s, b).w;
    FinishTruly(r, v);
    DeliverTruly(r, w.(peerClosed := true));
    EndedWith(y.s, b);
    hide Apply, ReadTrulyEnds, ReadSide.Finish, ReadSide.Deliver, Writer.EmitAll;
    if b.Write? {
      EmitAllStaysOpen(w, b.records);
    }
    if b == EndOfFile {
      SameEnd(r, r.Deliver(w.(peerClosed := true).Ending()), w, v);
    }
  }

  lemma SameEnd(r: ReadSide, q: ReadSide, w: Writer, v: Writer)
    requires r.Valid() && r.pending.Some? && ReadTrulyEnds(r, q, w) && v.error == w.error
    ensures ReadTrulyEnds(r, q, v)
  {
  }

  /** The error a step leaves the stream with. */
  lemma EndedWith(s: Session, b: Action)
    requires !s.w.closed && !s.w.closing && s.w.error.None?
    ensures var (w, v) := (s.w, Apply(s, b).w);
      && (b.Handshake? && !w.hasChannel && b.thrown.Some? ==> v.error == b.thrown)
      && (b.Write? && !w.Refuses() && b.thrown.Some? ==> v.error == b.thrown)
      && (b.Written? && b.failed.Some? ==> v.error == b.failed)
      && (b.Fail? ==> v.error == Some(b.ec))
      && (b.Shutdown? || b.EndOfFile? || b.Close? ==> v.error == w.error)
  {
    var w := s.w;
    ApplyIsWriter(s, b);
    match b
    case Write(_, _, records, _) => EmitAllStaysOpen(w, records);
    case Shutdown(id, records) =>
      EmitAllSame(w.(closing := true, shutdown := Some(id)), records);
      StartWriteSame(w.(closing := true, shutdown := Some(id)).EmitAll(records));
    case _ =>
    hide Writer.EmitAll, Writer.StartWrite;
  }

  // ---- what the handlers of accepted writes are told ----

  /** The writes asked for in the first n steps, with how many octets each had. */
  function Given(actions: seq<Action>, n: nat): set<(nat, nat)>
    requires n <= |actions|
  {
    set j | 0 <= j < n && actions[j].Write? :: (actions[j].id, actions[j].bytes)
  }

  /** Success tells how many octets the write had; failure tells 0 and the stream's error, or
      connection_closed when it has none. */
  predicate TrueAnswer(w: Writer, given: set<(nat, nat)>, c: Completion) {
    if c.error.None? then (c.id, c.bytes) in given
    else c.bytes == 0 && w.closed && c.error == Some(if w.error.Some? then w.error.value else ConnectionClosed)
  }

  ghost predicate Answered(w: Writer, given: set<(nat, nat)>) {
    && (w.error.Some? ==> w.closed)
    && (forall k :: 0 <= k < |w.outQueue| && w.outQueue[k].handler.Some? ==>
         (w.outQueue[k].handler.value, w.outQueue[k].userBytes) in given)
    && (forall k :: 0 <= k < |w.posted| ==> TrueAnswer(w, given, w.posted[k]))
  }

  lemma {:induction false} CompleteMarkersAnswered(w: Writer, given: set<(nat, nat)>)
    requires Answered(w, given) && !w.closed
    ensures Answered(w.CompleteMarkers(), given)
    decreases |w.outQueue|
  {
    if w.outQueue != [] && w.outQueue[0].data == [] {
      CompleteMarkersAnswered(w.PopMarker(), given);
    }
  }

  lemma StartWriteAnswered(w: Writer, given: set<(nat, nat)>)
    requires Answered(w, given)
    ensures Answered(w.StartWrite(), given)
  {
    if !w.writing && !w.closed {
      CompleteMarkersAnswered(w, given);
      CompleteMarkersFrame(w);
      hide Writer.CompleteMarkers;
    }
  }

  lemma PushAnswered(w: Writer, item: OutItem, given: set<(nat, nat)>)
    requires Answered(w, given) && (item.handler.Some? ==> (item.handler.value, item.userBytes) in given)
    ensures Answered(w.Push(item).StartWrite(), given)
  {
    StartWriteAnswered(w.Push(item), given);
  }

  lemma {:induction false} EmitAllAnswered(w: Writer, records: seq<seq<octet>>, given: set<(nat, nat)>)
    requires Answered(w, given)
    ensures Answered(w.EmitAll(records), given)
    decreases |records|
  {
    if records != [] {
      PushAnswered(w, OutItem(records[0], None, 0), given);
      EmitAllAnswered(w.Emit(records[0]), records[1..], given);
      hide Answered, Writer.StartWrite;
    }
  }

  lemma {:induction false} FailedAnswers(q: seq<OutItem>, ec: Error)
    ensures forall k :: 0 <= k < |Failed(q, ec)| ==> Failed(q, ec)[k].error == Some(ec) && Failed(q, ec)[k].bytes == 0
    decreases |q|
  {
    if q != [] {
      FailedAnswers(q[1..], ec);
    }
  }

  lemma FailAnswered(w: Writer, ec: Error, given: set<(nat, nat)>)
    requires Answered(w, given)
    ensures Answered(w.Fail(ec), given)
  {
    FailedAnswers(w.outQueue, ec);
  }

  lemma CloseAnswered(w: Writer, given: set<(nat, nat)>)
    requires Answered(w, given)
    ensures Answered(w.Close(), given)
  {
    FailedAnswers(w.outQueue, ConnectionClosed);
  }

  lemma RefuseAnswered(w: Writer, id: nat, given: set<(nat, nat)>)
    requires Answered(w, given)
    ensures Answered(w.Refuse(id), given)
  {
  }

  lemma WriteAnswered(w: Writer, a: Action, given: set<(nat, nat)>)
    requires a.Write? && Answered(w, given) && (a.id, a.bytes) in given
    ensures Answered(w.Write(a.id, a.bytes, a.records, a.thrown), given)
  {
    hide Answered, Writer.EmitAll, Writer.StartWrite, Writer.Fail, Writer.Refuse;
    var v := w.EmitAll(a.records);
    RefuseAnswered(w, a.id, given);
    EmitAllAnswered(w, a.records, given);
    PushAnswered(v, OutItem([], Some(a.id), a.bytes), given);
    if a.thrown.Some? {
      FailAnswered(v, a.thrown.value, given);
      RefuseAnswered(v.Fail(a.thrown.value), a.id, given);
    }
  }

  lemma WrittenAnswered(w: Writer, failed: Option<Error>, given: set<(nat, nat)>)
    requires Answered(w, given)
    ensures Answered(w.Written(failed), given)
  {
    var v := TlsReads.WrittenOut(w);
    StartWriteAnswered(v, given);
    if failed.Some? {
      FailAnswered(v, failed.value, given);
    }
    hide Writer.StartWrite, Writer.Fail;
  }

  lemma ShutdownAnswered(w: Writer, a: Action, given: set<(nat, nat)>)
    requires a.Shutdown? && Answered(w, given)
    ensures Answered(w.Shutdown(a.id, a.records), given)
  {
    var v := w.(closing := true, shutdown := Some(a.id));
    EmitAllAnswered(v, a.records, given);
    StartWriteAnswered(v.EmitAll(a.records), given);
    hide Writer.StartWrite, Writer.EmitAll;
  }

  /** Steps that only touch other fields, or close a stream with no failure to tell of. */
  lemma OthersAnswered(s: Session, a: Action, given: set<(nat, nat)>)
    requires Answered(s.w, given) && (a.Activate? || a.Alert? || a.EndOfFile?)
    ensures Answered(Apply(s, a).w, given)
  {
  }

  lemma HandshakeAnswered(w: Writer, id: nat, thrown: Option<Error>, given: set<(nat, nat)>)
    requires Answered(w, given)
    ensures Answered(w.StartHandshake(id, thrown), given)
  {
    if thrown.Some? {
      FailAnswered(w.(handshake := Some(id)), thrown.value, given);
    }
    hide Writer.Fail;
  }

  lemma AnsweredStep(s: Session, a: Action, given: set<(nat, nat)>)
    requires Answered(s.w, given) && (a.Write? ==> (a.id, a.bytes) in given)
    ensures Answered(Apply(s, a).w, given)
  {
    hide Answered;
    ApplyIsWriter(s, a);
    match a
    case Handshake(id, thrown) => HandshakeAnswered(s.w, id, thrown, given);
    case Emit(data) => PushAnswered(s.w, OutItem(data, None, 0), given);
    case Write(_, _, _, _) => WriteAnswered(s.w, a, given);
    case Written(failed) => WrittenAnswered(s.w, failed, given);
    case Shutdown(_, _) => ShutdownAnswered(s.w, a, given);
    case Fail(ec) => FailAnswered(s.w, ec, given);
    case Close => CloseAnswered(s.w, given);
    case _ => OthersAnswered(s, a, given);
  }

  lemma AnsweredMore(w: Writer, given: set<(nat, nat)>, more: set<(nat, nat)>)
    requires Answered(w, given) && given <= more
    ensures Answered(w, more)
  {
  }

  lemma {:induction false} AlwaysAnswered(ss: seq<Session>, actions: seq<Action>, i: nat)
    requires IsRun(ss, actions) && i < |ss|
    ensures Answered(ss[i].w, Given(actions, i))
    decreases i
  {
    hide Answered, Apply;
    if i == 0 {
      assert Given(actions, 0) == {};
      NothingToAnswer();
    } else {
      AlwaysAnswered(ss, actions, i - 1);
      AnsweredMore(ss[i - 1].w, Given(actions, i - 1), Given(actions, i));
      AnsweredStep(ss[i - 1], actions[i - 1], Given(actions, i));
    }
  }

  lemma NothingToAnswer()
    ensures Answered(NEW_WRITER, {})
  {
  }

  /** Every completion of a write tells the truth: after success the size of that very write,
      after failure 0 and why the stream ended. */
  lemma CompletionsAreTrue(ss: seq<Session>, actions: seq<Action>, i: nat, k: nat)
    requires IsRun(ss, actions) && i < |ss| && k < |ss[i].w.posted|
    ensures var (w, c) := (ss[i].w, ss[i].w.posted[k]);
      && (c.error.None? ==>
           exists j :: 0 <= j < i && actions[j].Write? && actions[j].id == c.id && actions[j].bytes == c.bytes)
      && (c.error.Some? ==>
           w.closed && c.bytes == 0 && c.error.value == if w.error.Some? then w.error.value else ConnectionClosed)
  {
    AlwaysAnswered(ss, actions, i);
    assert TrueAnswer(ss[i].w, Given(actions, i), ss[i].w.posted[k]);
  }
}
