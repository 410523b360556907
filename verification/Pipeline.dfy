/** From send on one side to the received notification on the other: any number of sending
    threads, the sender's strand, the TLS pipe, and the receiver's reads of any size. */
module Pipeline {
  import opened Octets
  import opened Options
  import opened Framing
  import opened Connection

  /** A handler on the sender's strand that has still to call do_send. */
  datatype Strand = Between | Connecting | Completing

  /** The frame handed to the stream: not refused, or certain to be reported as failed. */
  datatype Flight = NoFlight | Flying | Doomed

  /** `sent` is what was passed to send, in the order of the queue; `transmitted` are the
      messages of which octets went into the pipe; `pipe` is all octets put into it, of
      which `arrived` have come out. */
  datatype System = System(
    conn: Conn, strand: Strand, flight: Flight, posts: nat, senders: set<nat>, begun: bool,
    sent: seq<Message>, transmitted: seq<Message>, broken: bool,
    pipe: seq<octet>, arrived: nat,
    waiting: seq<octet>, reader: Reader, received: seq<Message>, readFailed: bool)

  const START := System(
    Conn([], false, false, false), Between, NoFlight, 0, {}, false, [], [], false, [], 0, [], NEW_READER, [], false)

  datatype Action =
    | Push(thread: nat, message: Message)
    | Look(thread: nat)
    | Connect
    | GoOn(taken: Option<nat>)
    | RunPosted(taken: Option<nat>)
    | FrameSent(ok: bool)
    | Disconnect
    | Arrive(n: nat)
    | StartReceive
    | Read(n: nat)
    | FailRead

  predicate Enabled(y: System, a: Action) {
    match a
    case Push(t, _) => t !in y.senders
    case Look(t) => t in y.senders
    case Connect => y.strand.Between? && !y.begun && !y.conn.disconnected
    case GoOn(_) => !y.strand.Between?
    case RunPosted(_) => y.strand.Between? && y.posts > 0
    case FrameSent(ok) => y.strand.Between? && !y.flight.NoFlight? && (ok ==> y.flight.Flying?)
    case Disconnect => true
    case Arrive(n) => y.arrived + n <= |y.pipe|
    case StartReceive => !y.reader.busy && !y.readFailed
    case Read(n) =>
      && y.reader.Receiving() && !y.readFailed
      && 0 < n <= |y.waiting| && n <= y.reader.expected - y.reader.received
    case FailRead => y.reader.busy
  }

  /** do_send. A frame too large is refused; so is any frame by a stream that fails, after
      some of its octets (`taken`) may have gone in. None stands for a frame accepted. */
  function DoSend(y: System, taken: Option<nat>): System {
    match y.conn.ToSend()
    case None => y
    case Some(m) =>
      var z := y.(conn := y.conn.DoSend());
      var frame := EncodeFrame(m);
      if |m| > MAX_FRAME_SIZE then z.(flight := Doomed, broken := true)
      else if taken.Some? then
        z.(flight := Doomed, broken := true, transmitted := y.transmitted + [m],
           pipe := y.pipe + (if taken.value <= |frame| then frame[..taken.value] else frame))
      else z.(flight := Flying, transmitted := y.transmitted + [m], pipe := y.pipe + frame)
  }

  function ReadOctets(y: System, n: nat): System
    requires Enabled(y, Read(n))
  {
    var (reader, done) := y.reader.OnRead(y.waiting[..n]);
    var z := y.(reader := reader, waiting := y.waiting[n..]);
    match done
    case Some(Payload(p)) => z.(received := y.received + [p])
    case Some(_) => z.(readFailed := true)
    case None => z
  }

  function Apply(y: System, a: Action): System
    requires Enabled(y, a)
  {
    match a
    case Push(t, m) => y.(conn := y.conn.Push(m), senders := y.senders + {t}, sent := y.sent + [m])
    case Look(t) =>
      y.(senders := y.senders - {t}, posts := if y.conn.isConnected then y.posts + 1 else y.posts)
    case Connect => y.(conn := y.conn.(isConnected := true), strand := Connecting, begun := true)
    case GoOn(taken) => DoSend(y.(strand := Between), taken)
    case RunPosted(taken) => DoSend(y.(posts := y.posts - 1), taken)
    case FrameSent(ok) =>
      var idle := y.(conn := y.conn.(writing := false), flight := NoFlight);
      if ok then idle.(strand := Completing) else idle.(conn := idle.conn.Disconnect())
    case Disconnect => y.(conn := y.conn.Disconnect())
    case Arrive(n) =>
      y.(arrived := y.arrived + n, waiting := y.waiting + y.pipe[y.arrived..y.arrived + n])
    case StartReceive => y.(reader := y.reader.Start())
    case Read(n) => ReadOctets(y, n)
    case FailRead => y.(reader := y.reader.(busy := false), readFailed := true)
  }

  ghost predicate IsRun(ys: seq<System>, actions: seq<Action>) {
    && |ys| == |actions| + 1 && ys[0] == START
    && forall i :: 0 <= i < |actions| ==> Enabled(ys[i], actions[i]) && ys[i + 1] == Apply(ys[i], actions[i])
  }

  // ---- the invariant ----

  /** Once connected, a queued message always has somebody who will look at the queue. */
  predicate Attended(y: System) {
    && (y.conn.writing <==> !y.flight.NoFlight?)
    && (y.conn.disconnected ==> !y.conn.isConnected)
    && (y.conn.isConnected ==> y.begun)
    && (y.conn.Sends() ==> y.posts > 0 || !y.strand.Between? || y.senders != {})
  }

  ghost predicate SentInOrder(y: System) {
    && (!y.broken ==> y.sent == y.transmitted + y.conn.outQueue && y.pipe == Frames(y.transmitted))
    && (y.broken ==>
        && (y.flight.Doomed? || y.conn.disconnected)
        && y.transmitted <= y.sent && y.pipe <= Frames(y.transmitted))
    && (y.flight.Doomed? ==> y.broken)
    && (forall i :: 0 <= i < |y.transmitted| ==> |y.transmitted[i]| <= MAX_FRAME_SIZE)
  }

  /** What the reader has of the frame it is receiving. */
  function Part(r: Reader): seq<octet> {
    if r.Receiving() then r.Part() else []
  }

  ghost predicate ReceivedInOrder(y: System) {
    && y.arrived <= |y.pipe|
    && y.reader.maxPayload == MAX_FRAME_SIZE
    && (y.reader.busy ==> y.reader.Receiving())
    && (forall i :: 0 <= i < |y.received| ==> Sendable(y.received[i]))
    && (!y.readFailed ==> Frames(y.received) + Part(y.reader) + y.waiting == y.pipe[..y.arrived])
    && (y.readFailed ==> Frames(y.received) <= y.pipe)
  }

  ghost predicate Inv(y: System) {
    Attended(y) && SentInOrder(y) && ReceivedInOrder(y)
  }

  // ---- every step keeps it ----

  lemma DoSendAttended(y: System, taken: Option<nat>)
    requires Attended(y.(posts := y.posts + 1))
    ensures Attended(DoSend(y, taken))
  {
  }

  lemma DoSendInOrder(y: System, taken: Option<nat>)
    requires SentInOrder(y) && (y.conn.writing <==> !y.flight.NoFlight?)
    requires y.conn.disconnected ==> !y.conn.isConnected
    ensures SentInOrder(DoSend(y, taken))
    ensures y.pipe <= DoSend(y, taken).pipe
  {
    if y.conn.ToSend().Some? {
      var m := y.conn.ToSend().value;
      FramesSnoc(y.transmitted, m);
      assert y.transmitted + y.conn.outQueue == y.transmitted + [m] + y.conn.outQueue[1..];
      hide EncodeFrame, Frames;
    }
  }

  /** More octets in the pipe change nothing for the receiver. */
  lemma ReceiverApart(y: System, z: System)
    requires ReceivedInOrder(y) && y.pipe <= z.pipe
    requires (z.arrived, z.waiting, z.reader, z.received, z.readFailed)
          == (y.arrived, y.waiting, y.reader, y.received, y.readFailed)
    ensures ReceivedInOrder(z)
  {
    hide Frames;
    assert z.pipe[..z.arrived] == y.pipe[..y.arrived];
  }

  /** And what the receiver does changes nothing for the sender. */
  lemma SenderApart(y: System, z: System)
    requires SentInOrder(y) && Attended(y)
    requires z == y.(arrived := z.arrived, waiting := z.waiting, reader := z.reader,
                     received := z.received, readFailed := z.readFailed)
    ensures SentInOrder(z) && Attended(z)
  {
  }

  lemma DoSendKept(y: System, taken: Option<nat>)
    requires SentInOrder(y) && Attended(y.(posts := y.posts + 1)) && ReceivedInOrder(y)
    ensures Inv(DoSend(y, taken))
  {
    DoSendAttended(y, taken);
    DoSendInOrder(y, taken);
    DoSendLeavesReceiver(y, taken);
    hide SentInOrder, ReceivedInOrder, Attended, DoSend;
    ReceiverApart(y, DoSend(y, taken));
  }

  lemma DoSendLeavesReceiver(y: System, taken: Option<nat>)
    ensures var z := DoSend(y, taken);
      (z.arrived, z.waiting, z.reader, z.received, z.readFailed)
        == (y.arrived, y.waiting, y.reader, y.received, y.readFailed)
  {
  }

  lemma PushKept(y: System, t: nat, m: Message)
    requires Inv(y) && Enabled(y, Push(t, m))
    ensures Inv(Apply(y, Push(t, m)))
  {
    hide Frames;
    assert y.transmitted + y.conn.outQueue + [m] == y.transmitted + (y.conn.outQueue + [m]);
  }

  lemma Regroup(a: seq<octet>, b: seq<octet>, c: seq<octet>, d: seq<octet>)
    ensures a + (b + c) + d == a + b + (c + d)
  {
  }

  lemma TakeMore(s: seq<octet>, i: nat, n: nat)
    requires i + n <= |s|
    ensures s[..i + n] == s[..i] + s[i..i + n]
  {
  }

  /** The octets the receiver has seen, frame by frame. */
  ghost predicate Accounted(y: System) {
    y.arrived <= |y.pipe| && Frames(y.received) + Part(y.reader) + y.waiting == y.pipe[..y.arrived]
  }

  lemma ArriveAccounted(y: System, n: nat)
    requires Accounted(y) && y.arrived + n <= |y.pipe|
    ensures Accounted(y.(arrived := y.arrived + n, waiting := y.waiting + y.pipe[y.arrived..y.arrived + n]))
  {
    hide Frames, Part;
    TakeMore(y.pipe, y.arrived, n);
    var seen := Frames(y.received) + Part(y.reader);
    Regroup(seen, [], y.waiting, y.pipe[y.arrived..y.arrived + n]);
    assert seen + [] == seen && [] + y.waiting == y.waiting;
  }

  lemma ArriveKept(y: System, n: nat)
    requires Inv(y) && Enabled(y, Arrive(n))
    ensures Inv(Apply(y, Arrive(n)))
  {
    var z := Apply(y, Arrive(n));
    SenderApart(y, z);
    if !y.readFailed {
      ArriveAccounted(y, n);
      assert Accounted(z);
    }
    hide Frames, SentInOrder, Attended, Reader.Receiving, Part, Sendable;
  }

  lemma StartReceiveKept(y: System)
    requires Inv(y) && Enabled(y, StartReceive)
    ensures Inv(Apply(y, StartReceive))
  {
    hide Frames;
    assert Part(y.reader.Start()) == [] == Part(y.reader);
  }

  /** The pipe carries only frames within the limit. */
  lemma NoInvalidRecord(y: System, n: nat)
    requires Inv(y) && Enabled(y, Read(n))
    ensures y.reader.OnRead(y.waiting[..n]).1 != Some(InvalidRecord)
  {
    var data := y.waiting[..n];
    OnReadAdvances(y.reader, data);
    hide *;
    if y.reader.OnRead(data).1 == Some(InvalidRecord) {
      PartIsNext(y, n);
      HeadIsWithinLimit(y, y.reader.Part() + data);
    }
  }

  /** What has been read of a frame, and the octets to come, are what the pipe carries next. */
  lemma PartIsNext(y: System, n: nat)
    requires ReceivedInOrder(y) && Enabled(y, Read(n))
    ensures Frames(y.received) + (y.reader.Part() + y.waiting[..n]) <= y.pipe
  {
    hide Frames, Reader.Receiving, Reader.Part;
    assert y.waiting == y.waiting[..n] + y.waiting[n..];
    assert Frames(y.received) + (y.reader.Part() + y.waiting[..n]) + y.waiting[n..] == y.pipe[..y.arrived];
  }

  lemma HeadIsWithinLimit(y: System, head: seq<octet>)
    requires SentInOrder(y) && |head| == FRAME_HEADER_SIZE
    requires Frames(y.received) + head <= y.pipe
    requires forall i :: 0 <= i < |y.received| ==> Sendable(y.received[i])
    ensures DecodeFrameLength(head) <= MAX_FRAME_SIZE
  {
    hide Frames, Header, DecodeFrameLength;
    FrameLimit(y.received, head, y.transmitted);
  }

  /** After some frames of a stream comes the header of its next frame. */
  lemma {:induction false} FrameLimit(got: seq<Message>, head: seq<octet>, sent: seq<Message>)
    requires |head| == FRAME_HEADER_SIZE && Frames(got) + head <= Frames(sent)
    requires forall i :: 0 <= i < |got| ==> Sendable(got[i])
    requires forall i :: 0 <= i < |sent| ==> |sent[i]| <= MAX_FRAME_SIZE
    ensures DecodeFrameLength(head) <= MAX_FRAME_SIZE
    decreases |got|
  {
    hide Header, DecodeFrameLength;
    assert sent != [];
    if got == [] {
      assert head == Frames(sent)[..FRAME_HEADER_SIZE] == Header(|sent[0]|);
      HeaderRoundTrip(|sent[0]|);
    } else {
      assert Frames(got) + head == EncodeFrame(got[0]) + (Frames(got[1..]) + head);
      FirstFrame(got[0], Frames(got[1..]) + head, sent[0], Frames(sent[1..]));
      FrameLimit(got[1..], head, sent[1..]);
    }
  }

  /** A read moves octets from those waiting to the frames received. */
  lemma ReadMoves(y: System, n: nat)
    requires ReceivedInOrder(y) && Enabled(y, Read(n))
    requires y.reader.OnRead(y.waiting[..n]).1 != Some(InvalidRecord)
    ensures var z := ReadOctets(y, n);
      && z == y.(waiting := y.waiting[n..], reader := z.reader, received := z.received)
      && (z.reader.busy ==> z.reader.Receiving()) && z.reader.maxPayload == y.reader.maxPayload
      && Frames(z.received) + Part(z.reader) == Frames(y.received) + (Part(y.reader) + y.waiting[..n])
      && (forall i :: 0 <= i < |z.received| ==> Sendable(z.received[i]))
  {
    var data := y.waiting[..n];
    var z := ReadOctets(y, n);
    OnReadAdvances(y.reader, data);
    var done := y.reader.OnRead(data).1;
    hide Frames, Incomplete, Reader.OnRead, Reader.Part, EncodeFrame;
    if done.Some? {
      assert !z.reader.busy && Part(z.reader) == [];
      FramesSnoc(y.received, done.value.payload);
      assert Frames(z.received) + [] == Frames(z.received);
    }
  }

  lemma ReadAccounted(y: System, n: nat, z: System)
    requires Accounted(y) && n <= |y.waiting|
    requires z.waiting == y.waiting[n..] && z.pipe == y.pipe && z.arrived == y.arrived
    requires Frames(z.received) + Part(z.reader) == Frames(y.received) + (Part(y.reader) + y.waiting[..n])
    ensures Accounted(z)
  {
    hide Frames, Part;
    Regroup(Frames(y.received), Part(y.reader), y.waiting[..n], y.waiting[n..]);
    assert y.waiting == y.waiting[..n] + y.waiting[n..];
  }

  lemma ReadKept(y: System, n: nat)
    requires Inv(y) && Enabled(y, Read(n))
    ensures Inv(Apply(y, Read(n)))
  {
    NoInvalidRecord(y, n);
    ReadMoves(y, n);
    var z := ReadOctets(y, n);
    SenderApart(y, z);
    ReadAccounted(y, n, z);
    assert Accounted(z);
    hide SentInOrder, Attended, Frames, ReadOctets, Reader.Receiving, Part, Sendable;
  }

  lemma ReadErrorKept(y: System)
    requires Inv(y) && Enabled(y, FailRead)
    ensures Inv(Apply(y, FailRead))
  {
    hide Frames;
    if !y.readFailed {
      assert Frames(y.received) <= y.pipe[..y.arrived];
    }
  }

  lemma InvKept(y: System, a: Action)
    requires Inv(y) && Enabled(y, a)
    ensures Inv(Apply(y, a))
  {
    hide Frames, EncodeFrame, Reader.Receiving, Reader.Part, Reader.OnRead;
    match a
    case Push(t, m) => PushKept(y, t, m);
    case Look(_) => ReceiverApart(y, Apply(y, a));
    case Connect => ReceiverApart(y, Apply(y, a));
    case GoOn(taken) =>
      ReceiverApart(y, y.(strand := Between));
      DoSendKept(y.(strand := Between), taken);
    case RunPosted(taken) =>
      ReceiverApart(y, y.(posts := y.posts - 1));
      DoSendKept(y.(posts := y.posts - 1), taken);
    case FrameSent(_) => ReceiverApart(y, Apply(y, a));
    case Disconnect => ReceiverApart(y, Apply(y, a));
    case Arrive(n) => ArriveKept(y, n);
    case StartReceive => StartReceiveKept(y);
    case Read(n) => ReadKept(y, n);
    case FailRead => ReadErrorKept(y);
  }

  lemma StartInv()
    ensures Inv(START)
  {
  }

  lemma {:induction false} RunInv(ys: seq<System>, actions: seq<Action>, i: nat)
    requires IsRun(ys, actions) && i < |ys|
    ensures Inv(ys[i])
    decreases i
  {
    hide Inv, Enabled, Apply, START;
    if i == 0 {
      StartInv();
    } else {
      RunInv(ys, actions, i - 1);
      InvKept(ys[i - 1], actions[i - 1]);
    }
  }

  /** do_send puts the front message into the pipe as a frame, its size in four octets, if
      it is connected and idle and the message has at most 16 MiB; a larger one is refused
      with nothing sent, and so, perhaps after some octets, is one the stream fails. */
  lemma DoSendExactly(y: System, taken: Option<nat>)
    ensures var (c, z) := (y.conn, DoSend(y, taken));
      if c.writing || c.outQueue == [] || !c.isConnected then z == y
      else
        var m := c.outQueue[0];
        && z.conn == Conn(c.outQueue[1..], true, true, c.disconnected)
        && (|m| > 16777216 ==> z.flight == Doomed && z.pipe == y.pipe && z.transmitted == y.transmitted)
        && (|m| <= 16777216 && taken.None? ==>
             && z.flight == Flying && z.transmitted == y.transmitted + [m]
             && |z.pipe| == |y.pipe| + 4 + |m| && z.pipe[..|y.pipe|] == y.pipe && z.pipe[|y.pipe| + 4..] == m
             && var h := z.pipe[|y.pipe|..|y.pipe| + 4];
                (h[0] as int) * 16777216 + (h[1] as int) * 65536 + (h[2] as int) * 256 + h[3] == |m|)
        && (|m| <= 16777216 && taken.Some? ==>
             z.flight == Doomed && z.broken && y.pipe <= z.pipe && z.pipe <= y.pipe + EncodeFrame(m))
  {
    if y.conn.Sends() {
      var m := y.conn.outQueue[0];
      if |m| <= 16777216 {
        FrameOnTheWire(m);
        assert y.pipe + EncodeFrame(m) == y.pipe + EncodeFrame(m)[..4] + m;
      }
      hide EncodeFrame;
    }
  }

  // ---- the main results ----

  /** Whatever the sizes in which octets arrive and are read: what the receiver is handed
      is, in order and with boundaries intact, a prefix of what was sent. */
  lemma ReceivedIsPrefixOfSent(ys: seq<System>, actions: seq<Action>, i: nat)
    requires IsRun(ys, actions) && i < |ys|
    ensures ys[i].received <= ys[i].sent
  {
    RunInv(ys, actions, i);
    ReceivedIsTransmitted(ys[i]);
  }

  lemma ReceivedIsTransmitted(y: System)
    requires Inv(y)
    ensures y.received <= y.transmitted <= y.sent
    ensures !y.broken && !y.readFailed && y.arrived == |y.pipe| && y.waiting == [] ==> y.received == y.transmitted
  {
    var part := if y.readFailed then [] else Part(y.reader);
    hide Frames;
    assert Frames(y.received) + [] == Frames(y.received);
    assert !y.readFailed ==> Frames(y.received) + part <= y.pipe[..y.arrived];
    FramesPrefix(y.received, part, y.transmitted);
    if y.reader.busy && !y.readFailed {
      PartIsIncomplete(y.reader);
    }
    assert y.pipe[..|y.pipe|] == y.pipe;
    assert Frames(y.received) + part + [] == Frames(y.received) + part;
  }

  /** Nothing is held back: when no frame was refused and nothing is left on the way, all
      of it has been received. */
  lemma DrainedReceivesAll(ys: seq<System>, actions: seq<Action>, i: nat)
    requires IsRun(ys, actions) && i < |ys|
    requires var y := ys[i];
      !y.broken && !y.readFailed && y.conn.outQueue == [] && y.arrived == |y.pipe| && y.waiting == []
    ensures ys[i].received == ys[i].sent
  {
    RunInv(ys, actions, i);
    ReceivedIsTransmitted(ys[i]);
    assert ys[i].transmitted + [] == ys[i].transmitted;
  }

  /** A message is never stranded: while connected with no frame under way, a non-empty
      queue has a posted do_send, a strand about to call it, or a sender about to post it. */
  lemma NeverStranded(ys: seq<System>, actions: seq<Action>, i: nat)
    requires IsRun(ys, actions) && i < |ys|
    requires ys[i].conn.isConnected && ys[i].conn.outQueue != []
    ensures !ys[i].flight.NoFlight? || ys[i].posts > 0 || !ys[i].strand.Between? || ys[i].senders != {}
  {
    RunInv(ys, actions, i);
  }

  /** The receiver never rejects a frame as too large. */
  lemma ReceiverNeverRejects(ys: seq<System>, actions: seq<Action>, i: nat, n: nat)
    requires IsRun(ys, actions) && i < |ys| && Enabled(ys[i], Read(n))
    ensures ys[i].reader.OnRead(ys[i].waiting[..n]).1 != Some(InvalidRecord)
  {
    RunInv(ys, actions, i);
    NoInvalidRecord(ys[i], n);
  }
}
