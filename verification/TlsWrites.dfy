/** Every write accepted by a tls_stream over a whole run: it completes at most once, in
    the order of acceptance, and with success only after its records are on the wire. */
module TlsWrites {
  import opened Octets
  import opened Options
  import opened TlsStream

  /** `accepted` are the writes taken in, in order; need[id] is how many records had been
      emitted when write id was taken in; `emitted` are the records queued, `written`
      those that have gone out. */
  datatype Log = Log(accepted: seq<nat>, need: map<nat, nat>, emitted: seq<seq<octet>>, written: seq<seq<octet>>)

  datatype Session = Session(w: Writer, log: Log)

  /** Alert is the peer's close_notify, which is only noted; EndOfFile is the end of the
      input, which also finishes a shutdown. */
  datatype Action =
    | Handshake(id: nat, thrown: Option<Error>)
    | Activate
    | Emit(data: seq<octet>)
    | Write(id: nat, bytes: nat, records: seq<seq<octet>>, thrown: Option<Error>)
    | Written(failed: Option<Error>)
    | Shutdown(id: nat, records: seq<seq<octet>>)
    | Alert
    | EndOfFile
    | Fail(ec: Error)
    | Close

  function Emitted(s: Session, data: seq<octet>): Session {
    Session(s.w.Emit(data),
            if s.w.closed || data == [] then s.log else s.log.(emitted := s.log.emitted + [data]))
  }

  function EmittedAll(s: Session, records: seq<seq<octet>>): (r: Session)
    ensures r.w == s.w.EmitAll(records)
    decreases |records|
  {
    if records == [] then s else EmittedAll(Emitted(s, records[0]), records[1..])
  }

  function Accept(s: Session, id: nat, bytes: nat): Session {
    Session(s.w.Push(OutItem([], Some(id), bytes)).StartWrite(),
            s.log.(accepted := s.log.accepted + [id], need := s.log.need[id := |s.log.emitted|]))
  }

  /** A handler is given with each write, so its identity is new; the socket reports only
      the write that is under way. */
  predicate Enabled(s: Session, a: Action) {
    match a
    case Write(id, _, _, _) => id !in s.log.accepted
    case Written(_) => s.w.writing
    case _ => true
  }

  function Apply(s: Session, a: Action): Session {
    match a
    case Handshake(id, thrown) => s.(w := s.w.StartHandshake(id, thrown))
    case Activate => s.(w := s.w.Activate())
    case Emit(data) => Emitted(s, data)
    case Write(id, bytes, records, thrown) =>
      if s.w.Refuses() then s.(w := s.w.Write(id, bytes, records, thrown))
      else if thrown.Some? then
        Session(s.w.Write(id, bytes, records, thrown), EmittedAll(s, records).log)
      else Accept(EmittedAll(s, records), id, bytes)
    case Written(failed) =>
      Session(s.w.Written(failed),
              if s.w.closed || s.w.outQueue == [] || failed.Some? then s.log
              else s.log.(written := s.log.written + [s.w.outQueue[0].data]))
    case Shutdown(id, records) =>
      if s.w.ShutDown() then s.(w := s.w.Shutdown(id, records))
      else Session(s.w.Shutdown(id, records),
                   EmittedAll(s.(w := s.w.(closing := true, shutdown := Some(id))), records).log)
    case Alert => s.(w := s.w.(peerClosed := true))
    case EndOfFile => s.(w := s.w.(peerClosed := true).FinishShutdown())
    case Fail(ec) => s.(w := s.w.Fail(ec))
    case Close => s.(w := s.w.Close())
  }

  /** The log goes along with what the stream does. */
  lemma ApplyIsWriter(s: Session, a: Action)
    ensures a.Write? ==> Apply(s, a).w == s.w.Write(a.id, a.bytes, a.records, a.thrown)
    ensures a.Shutdown? ==> Apply(s, a).w == s.w.Shutdown(a.id, a.records)
  {
  }

  // ---- the invariant ----

  function Records(q: seq<OutItem>): seq<seq<octet>>
    decreases |q|
  {
    if q == [] then [] else (if q[0].data == [] then [] else [q[0].data]) + Records(q[1..])
  }

  function Markers(q: seq<OutItem>): seq<nat>
    decreases |q|
  {
    if q == [] then [] else (if q[0].handler.Some? then [q[0].handler.value] else []) + Markers(q[1..])
  }

  function Ids(done: seq<Completion>): seq<nat> {
    seq(|done|, i requires 0 <= i < |done| => done[i].id)
  }

  /** Each marker in the queue waits for exactly the records in front of it, after the n
      that have gone out. */
  predicate Due(q: seq<OutItem>, n: nat, need: map<nat, nat>)
    decreases |q|
  {
    if q == [] then true
    else if q[0].data == [] then
      (q[0].handler.Some? ==> q[0].handler.value in need && need[q[0].handler.value] == n)
      && Due(q[1..], n, need)
    else q[0].handler.None? && Due(q[1..], n + 1, need)
  }

  ghost predicate Posted(s: Session) {
    var done := s.w.posted;
    && (forall i :: 0 <= i < |done| && done[i].error.None? ==>
        done[i].id in s.log.need && s.log.need[done[i].id] <= |s.log.written|)
    && (forall i, j :: 0 <= i < j < |done| && done[i].error.Some? ==> done[j].error.Some?)
    && (forall i :: 0 <= i < |done| && done[i].error.Some? ==> s.w.closed)
  }

  ghost predicate Inv(s: Session) {
    && Ids(s.w.posted) + Markers(s.w.outQueue) == s.log.accepted
    && (forall i, j :: 0 <= i < j < |s.log.accepted| ==> s.log.accepted[i] != s.log.accepted[j])
    && (forall id :: id in s.log.need <==> id in s.log.accepted)
    && s.log.written <= s.log.emitted
    && (s.w.error.Some? ==> s.w.closed)
    && (!s.w.closed ==>
        && s.log.written + Records(s.w.outQueue) == s.log.emitted
        && Due(s.w.outQueue, |s.log.written|, s.log.need))
    && (s.w.closed ==> Markers(s.w.outQueue) == [])
    && (s.w.writing && !s.w.closed ==> s.w.outQueue != [] && s.w.outQueue[0].data != [])
    && Posted(s)
  }

  lemma QueueConcat(p: seq<OutItem>, item: OutItem)
    ensures Records(p + [item]) == Records(p) + (if item.data == [] then [] else [item.data])
    ensures Markers(p + [item]) == Markers(p) + (if item.handler.Some? then [item.handler.value] else [])
  {
    RecordsConcat(p, item);
    MarkersConcat(p, item);
  }

  lemma {:induction false} RecordsConcat(p: seq<OutItem>, item: OutItem)
    ensures Records(p + [item]) == Records(p) + (if item.data == [] then [] else [item.data])
    decreases |p|
  {
    var last := if item.data == [] then [] else [item.data];
    if p == [] {
      assert p + [item] == [item] && Records([item][1..]) == [];
      assert last + [] == last && Records(p) + last == last;
    } else {
      RecordsConcat(p[1..], item);
      assert (p + [item])[1..] == p[1..] + [item];
      var first := if p[0].data == [] then [] else [p[0].data];
      assert first + (Records(p[1..]) + last) == first + Records(p[1..]) + last;
    }
  }

  lemma {:induction false} MarkersConcat(p: seq<OutItem>, item: OutItem)
    ensures Markers(p + [item]) == Markers(p) + (if item.handler.Some? then [item.handler.value] else [])
    decreases |p|
  {
    var last := if item.handler.Some? then [item.handler.value] else [];
    if p == [] {
      assert p + [item] == [item] && Markers([item][1..]) == [];
      assert last + [] == last && Markers(p) + last == last;
    } else {
      MarkersConcat(p[1..], item);
      assert (p + [item])[1..] == p[1..] + [item];
      var first := if p[0].handler.Some? then [p[0].handler.value] else [];
      assert first + (Markers(p[1..]) + last) == first + Markers(p[1..]) + last;
    }
  }

  lemma {:induction false} DuePush(q: seq<OutItem>, item: OutItem, n: nat, need: map<nat, nat>)
    requires Due(q, n, need)
    requires item.handler.None? || (item.data == [] && item.handler.value in need
             && need[item.handler.value] == n + |Records(q)|)
    ensures Due(q + [item], n, need)
    decreases |q|
  {
    if q == [] {
      assert (q + [item])[1..] == [];
    } else {
      assert (q + [item])[1..] == q[1..] + [item];
      DuePush(q[1..], item, if q[0].data == [] then n else n + 1, need);
    }
  }

  lemma {:induction false} DueGrows(q: seq<OutItem>, n: nat, need: map<nat, nat>, id: nat, v: nat)
    requires Due(q, n, need) && id !in need
    ensures Due(q, n, need[id := v])
    decreases |q|
  {
    if q != [] {
      DueGrows(q[1..], if q[0].data == [] then n else n + 1, need, id, v);
    }
  }

  lemma IdsConcat(a: seq<Completion>, b: seq<Completion>)
    ensures Ids(a + b) == Ids(a) + Ids(b)
  {
  }

  lemma IdsOfOne(c: Completion)
    ensures Ids([c]) == [c.id]
  {
  }

  lemma {:induction false} FailedIds(q: seq<OutItem>, ec: Error)
    ensures Ids(Failed(q, ec)) == Markers(q)
    ensures forall i :: 0 <= i < |Failed(q, ec)| ==> Failed(q, ec)[i].error.Some?
    decreases |q|
  {
    if q == [] {
    } else {
      FailedIds(q[1..], ec);
      if q[0].handler.Some? {
        var c := Completion(q[0].handler.value, Some(ec), 0);
        IdsConcat([c], Failed(q[1..], ec));
        IdsOfOne(c);
      } else {
        assert [] + Failed(q[1..], ec) == Failed(q[1..], ec);
        assert [] + Markers(q[1..]) == Markers(q[1..]);
      }
      hide Ids;
    }
  }

  // ---- every step keeps it ----

  lemma FrontItem(q: seq<OutItem>)
    requires q != []
    ensures q[0].data == [] ==> Records(q) == Records(q[1..])
    ensures q[0].data != [] ==> Records(q) == [q[0].data] + Records(q[1..])
    ensures q[0].handler.None? ==> Markers(q) == Markers(q[1..])
    ensures q[0].handler.Some? ==> Markers(q) == [q[0].handler.value] + Markers(q[1..])
  {
  }

  lemma PopMarkerKept(s: Session)
    requires Inv(s) && !s.w.closed && !s.w.writing && s.w.outQueue != [] && s.w.outQueue[0].data == []
    ensures Inv(s.(w := s.w.PopMarker()))
  {
    var item := s.w.outQueue[0];
    FrontItem(s.w.outQueue);
    var rest := s.w.outQueue[1..];
    assert Due(rest, |s.log.written|, s.log.need);
    if item.handler.Some? {
      MarkerPosted(s, Completion(item.handler.value, None, item.userBytes));
    }
  }

  lemma MarkerPosted(s: Session, c: Completion)
    requires Inv(s) && !s.w.closed && s.w.outQueue != [] && c.error.None?
    requires s.w.outQueue[0].data == [] && s.w.outQueue[0].handler == Some(c.id)
    ensures Inv(s.(w := s.w.(outQueue := s.w.outQueue[1..], posted := s.w.posted + [c], writing := false)))
  {
    hide Ids, Records, Markers, Due, Posted;
    MarkerMoves(s, c);
    PostedMore(s, c);
  }

  /** From the head of the queue to the end of the completions. */
  lemma MarkerMoves(s: Session, c: Completion)
    requires s.w.outQueue != []
    requires s.w.outQueue[0].data == [] && s.w.outQueue[0].handler == Some(c.id)
    requires Due(s.w.outQueue, |s.log.written|, s.log.need)
    ensures var rest := s.w.outQueue[1..];
      && Ids(s.w.posted + [c]) + Markers(rest) == Ids(s.w.posted) + Markers(s.w.outQueue)
      && Records(rest) == Records(s.w.outQueue)
      && Due(rest, |s.log.written|, s.log.need)
      && c.id in s.log.need && s.log.need[c.id] == |s.log.written|
  {
    var rest := s.w.outQueue[1..];
    FrontItem(s.w.outQueue);
    IdsConcat(s.w.posted, [c]);
    IdsOfOne(c);
    hide Ids, Records, Markers;
    assert Ids(s.w.posted) + [c.id] + Markers(rest) == Ids(s.w.posted) + ([c.id] + Markers(rest));
  }

  lemma PostedMore(s: Session, c: Completion)
    requires Posted(s) && !s.w.closed && c.error.None? && s.w.outQueue != []
    requires c.id in s.log.need && s.log.need[c.id] <= |s.log.written|
    ensures Posted(s.(w := s.w.(outQueue := s.w.outQueue[1..], posted := s.w.posted + [c], writing := false)))
  {
  }

  lemma {:induction false} CompleteMarkersKept(s: Session)
    requires Inv(s) && !s.w.closed && !s.w.writing
    ensures var t := s.(w := s.w.CompleteMarkers());
      && Inv(t) && t.w == s.w.(outQueue := t.w.outQueue, posted := t.w.posted)
      && (t.w.outQueue == [] || t.w.outQueue[0].data != [])
    decreases |s.w.outQueue|
  {
    hide Inv;
    if s.w.outQueue != [] && s.w.outQueue[0].data == [] {
      PopMarkerKept(s);
      CompleteMarkersKept(s.(w := s.w.PopMarker()));
    }
  }

  lemma FinishShutdownKept(s: Session)
    requires Inv(s)
    ensures Inv(s.(w := s.w.FinishShutdown()))
  {
  }

  lemma StartWriteKept(s: Session)
    requires Inv(s)
    ensures Inv(s.(w := s.w.StartWrite()))
  {
    if !s.w.writing && !s.w.closed {
      CompleteMarkersKept(s);
      var t := s.(w := s.w.CompleteMarkers());
      hide Writer.CompleteMarkers;
      if t.w.outQueue == [] && t.w.closing {
        FinishShutdownKept(t);
      }
    }
  }

  lemma PushRecordKept(s: Session, data: seq<octet>)
    requires Inv(s)
    ensures Inv(Session(s.w.Push(OutItem(data, None, 0)),
                        if s.w.closed || data == [] then s.log else s.log.(emitted := s.log.emitted + [data])))
  {
    QueueConcat(s.w.outQueue, OutItem(data, None, 0));
    assert Markers(s.w.outQueue) + [] == Markers(s.w.outQueue) && Records(s.w.outQueue) + [] == Records(s.w.outQueue);
    if !s.w.closed {
      DuePush(s.w.outQueue, OutItem(data, None, 0), |s.log.written|, s.log.need);
      hide Ids, Records, Markers, Due;
      assert s.log.written + (Records(s.w.outQueue) + [data]) == s.log.written + Records(s.w.outQueue) + [data];
    }
  }

  lemma EmittedKept(s: Session, data: seq<octet>)
    requires Inv(s)
    ensures Inv(Emitted(s, data))
  {
    hide Inv;
    PushRecordKept(s, data);
    StartWriteKept(Session(s.w.Push(OutItem(data, None, 0)), Emitted(s, data).log));
  }

  lemma {:induction false} EmittedAllKept(s: Session, records: seq<seq<octet>>)
    requires Inv(s)
    ensures Inv(EmittedAll(s, records))
    ensures EmittedAll(s, records).log.accepted == s.log.accepted
    decreases |records|
  {
    hide Inv;
    if records != [] {
      EmittedKept(s, records[0]);
      EmittedAllKept(Emitted(s, records[0]), records[1..]);
    }
  }

  /** Only a shutdown lets the write side end. */
  lemma {:induction false} EmitAllStaysOpen(w: Writer, records: seq<seq<octet>>)
    requires !w.closing && !w.closed
    ensures !w.EmitAll(records).closed && !w.EmitAll(records).closing && w.EmitAll(records).error == w.error
    decreases |records|
  {
    if records != [] {
      StartWriteStaysOpen(w.Push(OutItem(records[0], None, 0)));
      EmitAllStaysOpen(w.Emit(records[0]), records[1..]);
    }
  }

  lemma StartWriteStaysOpen(w: Writer)
    requires !w.closing && !w.closed
    ensures !w.StartWrite().closed && !w.StartWrite().closing && w.StartWrite().error == w.error
  {
    CompleteMarkersFrame(w);
  }

  lemma {:induction false} CompleteMarkersFrame(w: Writer)
    ensures w.CompleteMarkers() == w.(outQueue := w.CompleteMarkers().outQueue, posted := w.CompleteMarkers().posted)
    decreases |w.outQueue|
  {
    if w.outQueue != [] && w.outQueue[0].data == [] {
      CompleteMarkersFrame(w.PopMarker());
    }
  }

  lemma AcceptKept(s: Session, id: nat, bytes: nat)
    requires Inv(s) && !s.w.closed && id !in s.log.accepted
    ensures Inv(Accept(s, id, bytes))
  {
    var item := OutItem([], Some(id), bytes);
    var need := s.log.need[id := |s.log.emitted|];
    var t := Session(s.w.Push(item), s.log.(accepted := s.log.accepted + [id], need := need));
    QueueConcat(s.w.outQueue, item);
    DueGrows(s.w.outQueue, |s.log.written|, s.log.need, id, |s.log.emitted|);
    DuePush(s.w.outQueue, item, |s.log.written|, need);
    assert Ids(s.w.posted) + (Markers(s.w.outQueue) + [id]) == Ids(s.w.posted) + Markers(s.w.outQueue) + [id];
    assert t.w.outQueue[0] == if s.w.outQueue == [] then item else s.w.outQueue[0];
    assert Inv(t);
    hide Inv;
    StartWriteKept(t);
  }

  lemma FailPendingKept(s: Session, w: Writer, ec: Error)
    requires Inv(s) && !s.w.closed
    requires w == s.w.(error := w.error, closed := true)
    ensures Inv(s.(w := w.FailPending(ec)))
  {
    FailedIds(s.w.outQueue, ec);
    IdsConcat(s.w.posted, Failed(s.w.outQueue, ec));
    assert Markers([]) == [] && s.log.accepted + [] == s.log.accepted;
  }

  lemma FailKept(s: Session, ec: Error)
    requires Inv(s)
    ensures Inv(s.(w := s.w.Fail(ec)))
  {
    if !s.w.closed {
      FailPendingKept(s, s.w.(error := Some(ec), closed := true), ec);
    }
  }

  /** The record that was under way gone out. */
  function GoneOut(s: Session): Session
    requires s.w.outQueue != []
  {
    Session(s.w.(writing := false, outQueue := s.w.outQueue[1..]),
            s.log.(written := s.log.written + [s.w.outQueue[0].data]))
  }

  lemma GoneOutKept(s: Session)
    requires Inv(s) && s.w.writing && !s.w.closed
    ensures Inv(GoneOut(s))
  {
    FrontItem(s.w.outQueue);
    var data, rest := s.w.outQueue[0].data, s.w.outQueue[1..];
    assert s.w.outQueue[0].handler.None? && Due(rest, |s.log.written| + 1, s.log.need);
    assert s.log.written + [data] + Records(rest) == s.log.written + ([data] + Records(rest));
    hide Ids, Records, Markers, Due;
  }

  lemma WrittenKept(s: Session, failed: Option<Error>)
    requires Inv(s) && s.w.writing
    ensures Inv(Apply(s, Written(failed)))
  {
    if !s.w.closed {
      assert s.w.outQueue != [];
      GoneOutKept(s);
      var out := GoneOut(s);
      if failed.Some? {
        FailKept(out, failed.value);
        PostedGrows(out.w, failed.value);
        FewerWritten(out.(w := out.w.Fail(failed.value)), s);
      } else {
        hide Inv;
        StartWriteKept(out);
      }
    }
  }

  lemma PostedGrows(w: Writer, ec: Error)
    requires !w.closed && w.error.None?
    ensures var v := w.Fail(ec);
      && v.closed && |w.posted| <= |v.posted| && v.posted[..|w.posted|] == w.posted
      && forall i :: |w.posted| <= i < |v.posted| ==> v.posted[i].error.Some?
  {
    FailedIds(w.outQueue, ec);
  }

  /** A record whose write failed does not count as written. */
  lemma FewerWritten(t: Session, s: Session)
    requires Inv(t) && t.w.closed && Inv(s)
    requires t.log == s.log.(written := t.log.written)
    requires |s.w.posted| <= |t.w.posted| && t.w.posted[..|s.w.posted|] == s.w.posted
    requires forall i :: |s.w.posted| <= i < |t.w.posted| ==> t.w.posted[i].error.Some?
    ensures Inv(Session(t.w, s.log))
  {
    forall i | 0 <= i < |t.w.posted| && t.w.posted[i].error.None?
      ensures t.w.posted[i].id in s.log.need && s.log.need[t.w.posted[i].id] <= |s.log.written|
    {
      assert t.w.posted[i] == s.w.posted[i];
    }
  }

  lemma WriteKept(s: Session, a: Action)
    requires Inv(s) && Enabled(s, a) && a.Write?
    ensures Inv(Apply(s, a))
  {
    if !s.w.Refuses() {
      EmittedAllKept(s, a.records);
      EmitAllStaysOpen(s.w, a.records);
      hide Inv;
      if a.thrown.Some? {
        FailKept(EmittedAll(s, a.records), a.thrown.value);
        RefuseKept(s.(w := EmittedAll(s, a.records).w.Fail(a.thrown.value), log := EmittedAll(s, a.records).log), a.id);
      } else {
        AcceptKept(EmittedAll(s, a.records), a.id, a.bytes);
      }
    } else {
      RefuseKept(s, a.id);
    }
  }

  lemma RefuseKept(s: Session, id: nat)
    requires Inv(s)
    ensures Inv(s.(w := s.w.Refuse(id)))
  {
  }

  lemma ClosingKept(s: Session, id: nat)
    requires Inv(s)
    ensures Inv(s.(w := s.w.(closing := true, shutdown := Some(id))))
  {
  }

  lemma ShutdownKept(s: Session, a: Action)
    requires Inv(s) && a.Shutdown?
    ensures Inv(Apply(s, a))
  {
    if !s.w.ShutDown() {
      var t := s.(w := s.w.(closing := true, shutdown := Some(a.id)));
      ClosingKept(s, a.id);
      hide Inv, Writer.EmitAll, Writer.StartWrite;
      EmittedAllKept(t, a.records);
      StartWriteKept(EmittedAll(t, a.records));
    }
  }

  lemma CloseKept(s: Session)
    requires Inv(s)
    ensures Inv(s.(w := s.w.Close()))
  {
    if !s.w.closed {
      FailPendingKept(s, s.w.(closed := true), ConnectionClosed);
    }
  }

  lemma InvKept(s: Session, a: Action)
    requires Inv(s) && Enabled(s, a)
    ensures Inv(Apply(s, a))
  {
    match a
    case Handshake(id, thrown) => HandshakeKept(s, id, thrown);
    case Activate =>
    case Emit(data) => EmittedKept(s, data);
    case Write(_, _, _, _) => WriteKept(s, a);
    case Written(failed) => WrittenKept(s, failed);
    case Shutdown(_, _) => ShutdownKept(s, a);
    case Alert =>
    case EndOfFile => EndOfFileKept(s);
    case Fail(ec) => FailKept(s, ec);
    case Close => CloseKept(s);
  }

  lemma HandshakeKept(s: Session, id: nat, thrown: Option<Error>)
    requires Inv(s)
    ensures Inv(s.(w := s.w.StartHandshake(id, thrown)))
  {
    if !s.w.hasChannel && !s.w.closed && thrown.Some? {
      FailKept(s.(w := s.w.(handshake := Some(id))), thrown.value);
    }
  }

  lemma EndOfFileKept(s: Session)
    requires Inv(s)
    ensures Inv(s.(w := s.w.(peerClosed := true).FinishShutdown()))
  {
    FinishShutdownKept(s.(w := s.w.(peerClosed := true)));
  }

  ghost predicate IsRun(ss: seq<Session>, actions: seq<Action>) {
    && |ss| == |actions| + 1
    && ss[0] == Session(NEW_WRITER, Log([], map[], [], []))
    && forall i :: 0 <= i < |actions| ==> Enabled(ss[i], actions[i]) && ss[i + 1] == Apply(ss[i], actions[i])
  }

  lemma InitInv()
    ensures Inv(Session(NEW_WRITER, Log([], map[], [], [])))
  {
  }

  lemma {:induction false} RunInv(ss: seq<Session>, actions: seq<Action>, i: nat)
    requires IsRun(ss, actions) && i < |ss|
    ensures Inv(ss[i])
    decreases i
  {
    hide Enabled, Apply, Inv;
    if i == 0 {
      InitInv();
    } else {
      RunInv(ss, actions, i - 1);
      InvKept(ss[i - 1], actions[i - 1]);
    }
  }

  // ---- what a caller of async_write can rely on ----

  /** At any moment the accepted writes, in order, are those completed followed by those
      whose marker is queued; so each is in exactly one of the two places, once. */
  lemma WritesCompleteOnceInOrder(ss: seq<Session>, actions: seq<Action>, i: nat)
    requires IsRun(ss, actions) && i < |ss|
    ensures Ids(ss[i].w.posted) + Markers(ss[i].w.outQueue) == ss[i].log.accepted
    ensures forall j, k :: 0 <= j < k < |ss[i].log.accepted| ==> ss[i].log.accepted[j] != ss[i].log.accepted[k]
  {
    RunInv(ss, actions, i);
  }

  /** A write completes with success only after every record emitted for it and for all
      writes before it has gone out. */
  lemma SuccessMeansWritten(ss: seq<Session>, actions: seq<Action>, i: nat, k: nat)
    requires IsRun(ss, actions) && i < |ss| && k < |ss[i].w.posted| && ss[i].w.posted[k].error.None?
    ensures var s, id := ss[i], ss[i].w.posted[k].id;
      && id in s.log.need && s.log.need[id] <= |s.log.written|
      && s.log.written <= s.log.emitted
      && (forall j :: 0 <= j < k ==> s.w.posted[j].error.None?)
  {
    RunInv(ss, actions, i);
  }

  /** When the stream has ended no marker is left behind: all accepted writes have
      completed. */
  lemma ClosedCompletesAll(ss: seq<Session>, actions: seq<Action>, i: nat)
    requires IsRun(ss, actions) && i < |ss| && ss[i].w.closed
    ensures Ids(ss[i].w.posted) == ss[i].log.accepted
  {
    RunInv(ss, actions, i);
    assert Ids(ss[i].w.posted) + [] == Ids(ss[i].w.posted);
  }

  /** And while it is open, what is queued is exactly what still has to go out. */
  lemma NothingLostWhileOpen(ss: seq<Session>, actions: seq<Action>, i: nat)
    requires IsRun(ss, actions) && i < |ss| && !ss[i].w.closed
    ensures ss[i].log.written + Records(ss[i].w.outQueue) == ss[i].log.emitted
  {
    RunInv(ss, actions, i);
  }

  /** Records that an accepted write needs are those emitted up to then, its own among
      them. */
  lemma NeedCoversOwnRecords(s: Session, a: Action)
    requires Inv(s) && a.Write? && Enabled(s, a) && !s.w.Refuses() && a.thrown.None?
    ensures var t := Apply(s, a);
      && t.w == s.w.Write(a.id, a.bytes, a.records, a.thrown)
      && t.log.accepted == s.log.accepted + [a.id]
      && t.log.need[a.id] == |t.log.emitted|
      && t.log.emitted == s.log.emitted + NonEmpty(a.records)
  {
    ApplyIsWriter(s, a);
    EmittedAllKept(s, a.records);
    EmittedRecords(s, a.records);
  }

  function NonEmpty(records: seq<seq<octet>>): seq<seq<octet>>
    decreases |records|
  {
    if records == [] then [] else (if records[0] == [] then [] else [records[0]]) + NonEmpty(records[1..])
  }

  lemma {:induction false} EmittedRecords(s: Session, records: seq<seq<octet>>)
    requires !s.w.closing && !s.w.closed
    ensures EmittedAll(s, records).log.emitted == s.log.emitted + NonEmpty(records)
    decreases |records|
  {
    if records != [] {
      StartWriteStaysOpen(s.w.Push(OutItem(records[0], None, 0)));
      EmittedRecords(Emitted(s, records[0]), records[1..]);
    }
  }
}
