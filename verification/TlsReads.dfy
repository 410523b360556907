/** The read side of a tls_stream over whole runs, together with the write side that can
    end its reads: what is handed out is what the records brought, and every read is
    answered at most once. */
module TlsReads {
  import opened Octets
  import opened Options
  import opened TlsStream
  import TlsWrites

  /** `asked` are the reads begun, in order; `brought` is all data of records. */
  datatype Stream = Stream(s: TlsWrites.Session, r: ReadSide, asked: seq<nat>, brought: seq<octet>)

  datatype Action =
    | Record(data: seq<octet>)
    | Read(id: nat, size: nat)
    | Deliver
    | Side(a: TlsWrites.Action)

  predicate Enabled(y: Stream, a: Action) {
    match a
    case Read(id, _) => id !in y.asked
    case Side(b) => TlsWrites.Enabled(y.s, b)
    case _ => true
  }

  /** What a step of the write side does to the pending read. */
  function ReadsAfter(w: Writer, r: ReadSide, a: TlsWrites.Action): ReadSide {
    match a
    case Handshake(_, thrown) =>
      if w.hasChannel || w.closed || thrown.None? then r else r.OnFail(w, thrown.value)
    case Write(_, _, records, thrown) =>
      if w.Refuses() || thrown.None? then r else r.OnFail(w.EmitAll(records), thrown.value)
    case Written(failed) => if w.closed || failed.None? then r else r.OnFail(w, failed.value)
    case Shutdown(_, _) => if w.ShutDown() then r else r.Finish(Some(ConnectionClosed), [])
    case EndOfFile => r.Deliver(w.(peerClosed := true).Ending())
    case Fail(ec) => r.OnFail(w, ec)
    case Close => if w.closed then r else r.Finish(Some(w.Reason()), [])
    case _ => r
  }

  function Apply(y: Stream, a: Action): Stream {
    match a
    case Record(data) => y.(r := y.r.OnRecord(data), brought := y.brought + data)
    case Read(id, size) => y.(r := y.r.Start(y.s.w, id, size), asked := y.asked + [id])
    case Deliver => y.(r := y.r.Deliver(y.s.w.Ending()))
    case Side(b) => y.(s := TlsWrites.Apply(y.s, b), r := ReadsAfter(y.s.w, y.r, b))
  }

  const START := Stream(TlsWrites.Session(NEW_WRITER, TlsWrites.Log([], map[], [], [])), NEW_READ_SIDE, [], [])

  // ---- the invariant ----

  /** The data of the reads that are over. */
  function Handed(finished: seq<ReadDone>): seq<octet>
    decreases |finished|
  {
    if finished == [] then [] else Handed(finished[..|finished| - 1]) + finished[|finished| - 1].data
  }

  function Ids(finished: seq<ReadDone>): multiset<nat>
    decreases |finished|
  {
    if finished == [] then multiset{}
    else Ids(finished[..|finished| - 1]) + multiset{finished[|finished| - 1].id}
  }

  function PendingId(r: ReadSide): multiset<nat> {
    if r.pending.Some? then multiset{r.pending.value.id} else multiset{}
  }

  ghost predicate Distinct(s: seq<nat>) {
    forall i, j :: 0 <= i < j < |s| ==> s[i] != s[j]
  }

  /** The read side by itself: octets and reads are all there. */
  ghost predicate Kept(r: ReadSide, asked: seq<nat>, brought: seq<octet>) {
    && r.Valid()
    && Handed(r.finished) + r.Waiting() == brought
    && Ids(r.finished) + PendingId(r) == multiset(asked)
  }

  ghost predicate Inv(y: Stream) {
    && Kept(y.r, y.asked, y.brought) && Distinct(y.asked)
    && (y.s.w.closed || y.s.w.closing ==> y.r.pending == None)
  }

  lemma FinishedMore(finished: seq<ReadDone>, done: ReadDone)
    ensures Handed(finished + [done]) == Handed(finished) + done.data
    ensures Ids(finished + [done]) == Ids(finished) + multiset{done.id}
  {
    assert (finished + [done])[..|finished|] == finished;
  }

  /** A read that ends without data. */
  lemma FinishedEmpty(finished: seq<ReadDone>, done: ReadDone)
    requires done.data == []
    ensures Handed(finished + [done]) == Handed(finished)
    ensures Ids(finished + [done]) == Ids(finished) + multiset{done.id}
  {
    FinishedMore(finished, done);
    hide Handed, Ids;
    assert Handed(finished) + [] == Handed(finished);
  }

  lemma FinishKept(r: ReadSide, asked: seq<nat>, brought: seq<octet>, ec: Option<Error>)
    requires Kept(r, asked, brought)
    ensures Kept(r.Finish(ec, []), asked, brought) && r.Finish(ec, []).pending == None
  {
    if r.pending.Some? {
      FinishedEmpty(r.finished, ReadDone(r.pending.value.id, ec, []));
      hide Handed, Ids;
    }
  }

  lemma DeliverKept(r: ReadSide, asked: seq<nat>, brought: seq<octet>, ending: Option<Error>)
    requires Kept(r, asked, brought)
    ensures Kept(r.Deliver(ending), asked, brought)
  {
    hide Handed, Ids;
    if r.pending.Some? && r.Waiting() != [] {
      SomeDelivered(r, asked, brought, ending);
    } else if r.pending.Some? && ending.Some? {
      FinishKept(r, asked, brought, ending);
    }
  }

  lemma SomeDelivered(r: ReadSide, asked: seq<nat>, brought: seq<octet>, ending: Option<Error>)
    requires Kept(r, asked, brought) && r.pending.Some? && r.Waiting() != []
    ensures Kept(r.Deliver(ending), asked, brought)
  {
    hide Handed, Ids, ReadSide.Deliver;
    var w := r.Waiting();
    var n := Portion(w, r.pending.value.size);
    DeliverGives(r, ending);
    FinishedMore(r.finished, ReadDone(r.pending.value.id, None, w[..n]));
    Regroup(Handed(r.finished), w, n);
    hide ReadSide.Waiting, ReadSide.Valid;
  }

  lemma Regroup(a: seq<octet>, w: seq<octet>, n: nat)
    requires n <= |w|
    ensures a + w[..n] + w[n..] == a + w
  {
  }

  lemma StartKept(r: ReadSide, w: Writer, asked: seq<nat>, brought: seq<octet>, id: nat, size: nat)
    requires Kept(r, asked, brought)
    ensures Kept(r.Start(w, id, size), asked + [id], brought)
  {
    hide Handed, Ids, ReadSide.Deliver;
    assert multiset(asked + [id]) == multiset(asked) + multiset{id};
    if r.pending.Some? {
      FinishedEmpty(r.finished, ReadDone(id, Some(OperationInProgress), []));
    } else if w.closed || w.closing {
      FinishedEmpty(r.finished, ReadDone(id, Some(w.Reason()), []));
    } else {
      DeliverKept(r.(pending := Some(PendingRead(id, size))), asked + [id], brought, w.Ending());
    }
  }

  lemma OnFailKept(r: ReadSide, w: Writer, ec: Error, asked: seq<nat>, brought: seq<octet>)
    requires Kept(r, asked, brought)
    ensures Kept(r.OnFail(w, ec), asked, brought)
    ensures !(w.error.Some? || w.closed) || r.pending == None ==> r.OnFail(w, ec).pending == None
  {
    hide Kept;
    FinishKept(r, asked, brought, Some(ec));
  }

  lemma SideKept(r: ReadSide, w: Writer, b: TlsWrites.Action, asked: seq<nat>, brought: seq<octet>)
    requires Kept(r, asked, brought)
    ensures Kept(ReadsAfter(w, r, b), asked, brought)
    ensures r.pending == None ==> ReadsAfter(w, r, b).pending == None
  {
    hide Kept, ReadSide.OnFail, Writer.EmitAll, Writer.Ending;
    match b
    case Handshake(_, thrown) =>
      if thrown.Some? {
        OnFailKept(r, w, thrown.value, asked, brought);
      }
    case Write(_, _, records, thrown) =>
      if thrown.Some? {
        OnFailKept(r, w.EmitAll(records), thrown.value, asked, brought);
      }
    case Written(failed) =>
      if failed.Some? {
        OnFailKept(r, w, failed.value, asked, brought);
      }
    case Shutdown(_, _) => FinishKept(r, asked, brought, Some(ConnectionClosed));
    case EndOfFile => DeliverKept(r, asked, brought, w.(peerClosed := true).Ending());
    case Fail(ec) => OnFailKept(r, w, ec, asked, brought);
    case Close => FinishKept(r, asked, brought, Some(w.Reason()));
    case _ =>
  }

  /** Whatever closes the stream, or begins to, ends the pending read. */
  lemma ClosingEndsReads(s: TlsWrites.Session, r: ReadSide, b: TlsWrites.Action)
    requires TlsWrites.Inv(s) && TlsWrites.Enabled(s, b) && !s.w.closed && !s.w.closing
    ensures var w := TlsWrites.Apply(s, b).w;
      w.closed || w.closing ==> ReadsAfter(s.w, r, b).pending == None
  {
    hide TlsWrites.Inv, Writer.CompleteMarkers, ReadSide.Deliver;
    assert s.w.error == None by {
      OpenHasNoError(s);
    }
    match b
    case Emit(data) => TlsWrites.StartWriteStaysOpen(s.w.Push(OutItem(data, None, 0)));
    case Write(id, bytes, records, thrown) => WriteEndsReads(s, r, b);
    case Written(failed) =>
      if failed.None? {
        TlsWrites.StartWriteStaysOpen(WrittenOut(s.w));
      }
    case _ =>
  }

  lemma OpenHasNoError(s: TlsWrites.Session)
    requires TlsWrites.Inv(s) && !s.w.closed
    ensures s.w.error == None
  {
  }

  function WrittenOut(w: Writer): Writer {
    w.(writing := false, outQueue := if w.outQueue == [] then [] else w.outQueue[1..])
  }

  lemma WriteEndsReads(s: TlsWrites.Session, r: ReadSide, b: TlsWrites.Action)
    requires b.Write? && !s.w.closed && !s.w.closing && s.w.error == None
    ensures var w := TlsWrites.Apply(s, b).w;
      w.closed || w.closing ==> ReadsAfter(s.w, r, b).pending == None
  {
    hide Writer.StartWrite, Writer.EmitAll;
    if !s.w.Refuses() {
      TlsWrites.EmitAllStaysOpen(s.w, b.records);
      if b.thrown.None? {
        TlsWrites.StartWriteStaysOpen(s.w.EmitAll(b.records).Push(OutItem([], Some(b.id), b.bytes)));
      }
    }
  }

  ghost predicate FullInv(y: Stream) {
    Inv(y) && TlsWrites.Inv(y.s)
  }

  lemma RecordKept(r: ReadSide, asked: seq<nat>, brought: seq<octet>, data: seq<octet>)
    requires Kept(r, asked, brought)
    ensures Kept(r.OnRecord(data), asked, brought + data)
  {
    hide Handed, Ids;
    assert r.OnRecord(data).Waiting() == r.Waiting() + data;
    assert Handed(r.finished) + (r.Waiting() + data) == Handed(r.finished) + r.Waiting() + data;
  }

  lemma DistinctMore(asked: seq<nat>, id: nat)
    requires Distinct(asked) && id !in asked
    ensures Distinct(asked + [id])
  {
  }

  lemma ReadsKept(y: Stream, a: Action)
    requires Inv(y) && Enabled(y, a)
    ensures Kept(Apply(y, a).r, Apply(y, a).asked, Apply(y, a).brought) && Distinct(Apply(y, a).asked)
  {
    hide Kept, Distinct, ReadsAfter, ReadSide.Deliver, ReadSide.Start, TlsWrites.Apply;
    match a
    case Record(data) => RecordKept(y.r, y.asked, y.brought, data);
    case Read(id, size) =>
      StartKept(y.r, y.s.w, y.asked, y.brought, id, size);
      DistinctMore(y.asked, id);
    case Deliver => DeliverKept(y.r, y.asked, y.brought, y.s.w.Ending());
    case Side(b) => SideKept(y.r, y.s.w, b, y.asked, y.brought);
  }

  lemma StaysEnded(y: Stream, a: Action)
    requires FullInv(y) && Enabled(y, a)
    ensures var z := Apply(y, a); z.s.w.closed || z.s.w.closing ==> z.r.pending == None
  {
    hide Handed, Ids, TlsWrites.Inv, Distinct;
    match a
    case Side(b) =>
      hide TlsWrites.Apply, ReadsAfter;
      if y.s.w.closed || y.s.w.closing {
        SideKept(y.r, y.s.w, b, y.asked, y.brought);
      } else {
        ClosingEndsReads(y.s, y.r, b);
      }
    case _ =>
  }

  lemma InvKept(y: Stream, a: Action)
    requires FullInv(y) && Enabled(y, a)
    ensures FullInv(Apply(y, a))
  {
    ReadsKept(y, a);
    StaysEnded(y, a);
    hide Kept, Distinct, TlsWrites.Inv, TlsWrites.Apply, ReadsAfter;
    if a.Side? {
      TlsWrites.InvKept(y.s, a.a);
    }
  }

  ghost predicate IsRun(ys: seq<Stream>, actions: seq<Action>) {
    && |ys| == |actions| + 1 && ys[0] == START
    && forall i :: 0 <= i < |actions| ==>
      Enabled(ys[i], actions[i]) && ys[i + 1] == Apply(ys[i], actions[i])
  }

  lemma StartInv()
    ensures FullInv(START)
  {
    TlsWrites.InitInv();
  }

  lemma {:induction false} RunInv(ys: seq<Stream>, actions: seq<Action>, i: nat)
    requires IsRun(ys, actions) && i < |ys|
    ensures FullInv(ys[i])
    decreases i
  {
    hide FullInv, Enabled, Apply, START;
    if i == 0 {
      StartInv();
    } else {
      RunInv(ys, actions, i - 1);
      InvKept(ys[i - 1], actions[i - 1]);
    }
  }

  // ---- the main results ----

  /** In every run, what the reads were handed followed by what waits is exactly what the
      records brought, in order. */
  lemma HandedOutInOrder(ys: seq<Stream>, actions: seq<Action>, i: nat)
    requires IsRun(ys, actions) && i < |ys|
    ensures ys[i].r.Valid() && Handed(ys[i].r.finished) + ys[i].r.Waiting() == ys[i].brought
  {
    RunInv(ys, actions, i);
  }

  /** Every read begun has ended once, or is the pending one and has not ended; and once
      the stream is closed or closing all of them have ended. */
  lemma ReadsEndOnce(ys: seq<Stream>, actions: seq<Action>, i: nat)
    requires IsRun(ys, actions) && i < |ys|
    ensures Ids(ys[i].r.finished) + PendingId(ys[i].r) == multiset(ys[i].asked)
    ensures Distinct(ys[i].asked)
    ensures ys[i].s.w.closed || ys[i].s.w.closing ==> Ids(ys[i].r.finished) == multiset(ys[i].asked)
  {
    RunInv(ys, actions, i);
    assert Ids(ys[i].r.finished) + multiset{} == Ids(ys[i].r.finished);
  }
}
