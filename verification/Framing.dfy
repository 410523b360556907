/** Length-prefixed frames: securepath/network/encryption/framing.cpp. */
module Framing {
  import opened Octets
  import opened Options

  const MAX_FRAME_SIZE := 0x100_0000
  const FRAME_HEADER_SIZE := 4
  const TWO32 := 0x1_0000_0000

  /** The header carries the size cut to 32 bits, most significant octet first. */
  function Header(size: nat): (h: seq<octet>)
    ensures |h| == FRAME_HEADER_SIZE
  {
    var v := size % TWO32;
    [v / 0x100_0000, v / 0x1_0000 % 0x100, v / 0x100 % 0x100, v % 0x100]
  }

  function EncodeFrame(payload: seq<octet>): seq<octet> {
    Header(|payload|) + payload
  }

  function DecodeFrameLength(h: seq<octet>): (n: nat)
    requires |h| == FRAME_HEADER_SIZE
    ensures n < TWO32
  {
    (h[0] as nat) * 0x100_0000 + (h[1] as nat) * 0x1_0000 + (h[2] as nat) * 0x100 + (h[3] as nat)
  }

  lemma HeaderRoundTrip(size: nat)
    ensures DecodeFrameLength(Header(size)) == size % TWO32
  {
    var v := size % TWO32;
    var a, b, c := v / 0x100_0000, v / 0x1_0000, v / 0x100;
    assert b == a * 0x100 + b % 0x100;
    assert c == b * 0x100 + c % 0x100;
    assert v == c * 0x100 + v % 0x100;
  }

  lemma CutLow(q: nat, r: nat, b: nat)
    requires b == 0x100 || b == 0x1_0000 || b == 0x100_0000
    requires r < b
    ensures (q * b + r) / b == q && (q * b + r) % b == r
  {
    if b == 0x100 {
    } else if b == 0x1_0000 {
    } else {
    }
  }

  lemma LengthRoundTrip(h: seq<octet>)
    requires |h| == FRAME_HEADER_SIZE
    ensures Header(DecodeFrameLength(h)) == h
  {
    var v := DecodeFrameLength(h);
    var a, b, c, d: nat := h[0], h[1], h[2], h[3];
    CutLow(a, b * 0x1_0000 + c * 0x100 + d, 0x100_0000);
    CutLow(a * 0x100 + b, c * 0x100 + d, 0x1_0000);
    CutLow(a * 0x1_0000 + b * 0x100 + c, d, 0x100);
    CutLow(a, b, 0x100);
    CutLow(a * 0x100 + b, c, 0x100);
    HeaderIs(v, h);
  }

  lemma HeaderIs(v: nat, h: seq<octet>)
    requires v < TWO32 && |h| == FRAME_HEADER_SIZE
    requires v / 0x100_0000 == h[0] && v / 0x1_0000 % 0x100 == h[1]
    requires v / 0x100 % 0x100 == h[2] && v % 0x100 == h[3]
    ensures Header(v) == h
  {
    assert v % TWO32 == v;
  }

  /** On the wire: the payload after its size in four octets, most significant first. */
  lemma FrameOnTheWire(payload: seq<octet>)
    requires |payload| < 4294967296
    ensures var f := EncodeFrame(payload);
      && |f| == 4 + |payload| && f[4..] == payload
      && (f[0] as int) * 16777216 + (f[1] as int) * 65536 + (f[2] as int) * 256 + f[3] == |payload|
  {
    HeaderRoundTrip(|payload|);
  }

  // ---- a stream of frames ----

  function Frames(messages: seq<seq<octet>>): seq<octet>
    decreases |messages|
  {
    if messages == [] then [] else EncodeFrame(messages[0]) + Frames(messages[1..])
  }

  predicate Sendable(m: seq<octet>) {
    |m| < TWO32
  }

  /** Not yet a whole frame. */
  predicate Incomplete(part: seq<octet>) {
    |part| < FRAME_HEADER_SIZE || |part| < FRAME_HEADER_SIZE + DecodeFrameLength(part[..FRAME_HEADER_SIZE])
  }

  lemma {:induction false} FramesSnoc(messages: seq<seq<octet>>, m: seq<octet>)
    ensures Frames(messages + [m]) == Frames(messages) + EncodeFrame(m)
    decreases |messages|
  {
    hide EncodeFrame;
    if messages == [] {
      assert Frames([m]) == EncodeFrame(m) + Frames([]);
    } else {
      FramesSnoc(messages[1..], m);
      assert (messages + [m])[1..] == messages[1..] + [m];
    }
  }

  lemma HeaderTellsSize(size: nat, other: nat)
    requires Header(size) == Header(other) && size < TWO32 && other < TWO32
    ensures size == other
  {
    HeaderRoundTrip(size);
    HeaderRoundTrip(other);
  }

  /** A frame at the front of a stream of sent frames is the first one sent. */
  lemma FirstFrame(p: seq<octet>, x: seq<octet>, m: seq<octet>, y: seq<octet>)
    requires Sendable(p) && Sendable(m)
    requires EncodeFrame(p) + x <= EncodeFrame(m) + y
    ensures p == m && x <= y
  {
    hide Header, DecodeFrameLength;
    var s, t := EncodeFrame(p) + x, EncodeFrame(m) + y;
    assert Header(|p|) == s[..FRAME_HEADER_SIZE] == t[..FRAME_HEADER_SIZE] == Header(|m|);
    HeaderTellsSize(|p|, |m|);
    var n := FRAME_HEADER_SIZE + |p|;
    PrefixTail(s, t, n);
    assert p == s[..n][FRAME_HEADER_SIZE..] && m == t[..n][FRAME_HEADER_SIZE..];
    assert x == s[n..] && y == t[n..];
  }

  lemma PrefixTail(s: seq<octet>, t: seq<octet>, n: nat)
    requires s <= t && n <= |s|
    ensures s[..n] == t[..n] && s[n..] <= t[n..]
  {
    assert t[n..][..|s| - n] == s[n..];
  }

  lemma WholeFrameIsComplete(m: seq<octet>, rest: seq<octet>)
    requires Sendable(m)
    ensures !Incomplete(EncodeFrame(m) + rest)
  {
    HeaderRoundTrip(|m|);
    assert (EncodeFrame(m) + rest)[..FRAME_HEADER_SIZE] == Header(|m|);
  }

  /** Frames read off the front of a stream of frames are the first ones sent, and when
      the whole stream was read they are all of them. */
  lemma {:induction false} FramesPrefix(got: seq<seq<octet>>, part: seq<octet>, sent: seq<seq<octet>>)
    requires forall i :: 0 <= i < |got| ==> Sendable(got[i])
    requires forall i :: 0 <= i < |sent| ==> Sendable(sent[i])
    requires Frames(got) + part <= Frames(sent)
    ensures got <= sent
    ensures Frames(got) + part == Frames(sent) && Incomplete(part) ==> got == sent && part == []
    decreases |got|
  {
    hide Incomplete, Header, DecodeFrameLength;
    if got == [] {
      assert Frames(got) + part == part;
      if sent != [] {
        WholeFrameIsComplete(sent[0], Frames(sent[1..]));
      }
    } else {
      assert Frames(got) + part == EncodeFrame(got[0]) + (Frames(got[1..]) + part);
      assert |Frames(sent)| > 0;
      var x, y := Frames(got[1..]) + part, Frames(sent[1..]);
      FirstFrame(got[0], x, sent[0], y);
      FramesPrefix(got[1..], part, sent[1..]);
      assert got == [got[0]] + got[1..] && sent == [sent[0]] + sent[1..];
      hide Frames, EncodeFrame;
      if Frames(got) + part == Frames(sent) {
        SameTails(EncodeFrame(got[0]), x, y);
      }
    }
  }

  lemma SameTails(a: seq<octet>, x: seq<octet>, y: seq<octet>)
    requires a + x == a + y
    ensures x == y
  {
    assert x == (a + x)[|a|..] && y == (a + y)[|a|..];
  }

  // ---- frame_reader ----

  datatype Completion = Payload(payload: seq<octet>) | InvalidRecord | ReadError

  datatype Reader = Reader(
    buffer: seq<octet>, received: nat, expected: nat, maxPayload: nat, headerDone: bool, busy: bool)
  {
    /** What the reader relies on while a frame is being received. */
    predicate Receiving() {
      && busy && |buffer| == expected && received < expected
      && (if headerDone then expected < TWO32 else expected == FRAME_HEADER_SIZE)
    }

    /** The octets of the current frame that have been read. */
    function Part(): seq<octet>
      requires Receiving()
    {
      if headerDone then Header(expected) + buffer[..received] else buffer[..received]
    }

    function Start(): Reader {
      Reader(Resize(buffer, FRAME_HEADER_SIZE), 0, FRAME_HEADER_SIZE, maxPayload, false, true)
    }

    /** Octets read into the buffer. */
    function Fill(data: seq<octet>): Reader
      requires Receiving() && |data| <= expected - received
    {
      this.(buffer := buffer[..received] + data + buffer[received + |data|..], received := received + |data|)
    }

    /** The reader after a successful read, and what it completes with, if anything. */
    function OnRead(data: seq<octet>): (Reader, Option<Completion>)
      requires Receiving() && 0 < |data| <= expected - received
    {
      var r := Fill(data);
      if r.received < expected then (r, None)
      else if headerDone then (r.(busy := false, buffer := []), Some(Payload(r.buffer)))
      else
        var length := DecodeFrameLength(r.buffer);
        if length > maxPayload then (r.(busy := false), Some(InvalidRecord))
        else
          var body := r.(headerDone := true, received := 0, expected := length, buffer := Resize(r.buffer, length));
          if length == 0 then (body.(busy := false, buffer := []), Some(Payload(body.buffer))) else (body, None)
    }
  }

  function Resize(s: seq<octet>, n: nat): (r: seq<octet>)
    ensures |r| == n
  {
    if n <= |s| then s[..n] else s + seq(n - |s|, _ => 0)
  }

  const NEW_READER := Reader([0, 0, 0, 0], 0, FRAME_HEADER_SIZE, MAX_FRAME_SIZE, false, false)

  /** Whatever the sizes of the reads: the octets read so far stay an unfinished frame,
      until they are exactly the frame of the payload that is handed over. */
  lemma OnReadAdvances(r: Reader, data: seq<octet>)
    requires r.Receiving() && 0 < |data| <= r.expected - r.received
    ensures var (next, done) := r.OnRead(data);
      && Incomplete(r.Part())
      && (done.None? ==> next.Receiving() && next.Part() == r.Part() + data)
      && (done.Some? ==> !next.busy)
      && (done.Some? && done.value.Payload? ==>
           EncodeFrame(done.value.payload) == r.Part() + data && Sendable(done.value.payload))
      && (done == Some(InvalidRecord) <==>
           !r.headerDone && |r.Part() + data| == FRAME_HEADER_SIZE
           && DecodeFrameLength(r.Part() + data) > r.maxPayload)
      && done != Some(ReadError) && next.maxPayload == r.maxPayload
  {
    hide Header, DecodeFrameLength;
    PartIsIncomplete(r);
    var filled := r.Fill(data);
    assert filled.buffer[..filled.received] == r.buffer[..r.received] + data;
    if filled.received == r.expected {
      assert filled.buffer[..filled.received] == filled.buffer;
      if r.headerDone {
        assert r.Part() + data == Header(r.expected) + filled.buffer;
      } else {
        LengthRoundTrip(filled.buffer);
        var n := DecodeFrameLength(filled.buffer);
        assert Header(n) + [] == Header(n) && Resize(filled.buffer, n)[..0] == [];
      }
    } else if r.headerDone {
      assert filled.Part() == r.Part() + data;
    }
  }

  /** A receive starts with nothing read, waiting for a header, under the cap set before. */
  lemma StartExactly(r: Reader)
    ensures var s := r.Start();
      s.Receiving() && s.Part() == [] && !s.headerDone && s.expected == 4 && s.maxPayload == r.maxPayload
  {
  }

  lemma PartIsIncomplete(r: Reader)
    requires r.Receiving()
    ensures Incomplete(r.Part())
  {
    if r.headerDone {
      HeaderRoundTrip(r.expected);
      assert r.Part()[..FRAME_HEADER_SIZE] == Header(r.expected);
    }
  }

  class FrameReader {
    var buffer: seq<octet>
    var received: nat
    var expected: nat
    var maxPayload: nat
    var headerDone: bool
    var busy: bool

    ghost function View(): Reader
      reads this
    {
      Reader(buffer, received, expected, maxPayload, headerDone, busy)
    }

    constructor ()
      ensures View() == NEW_READER
    {
      buffer, received, expected := [0, 0, 0, 0], 0, FRAME_HEADER_SIZE;
      maxPayload, headerDone, busy := MAX_FRAME_SIZE, false, false;
    }

    method SetMaxFrameSize(max: nat)
      modifies this`maxPayload
      ensures View() == old(View()).(maxPayload := max)
    {
      maxPayload := max;
    }

    /** Refused while a receive is outstanding. */
    method AsyncReceiveFrame() returns (started: bool)
      modifies this
      ensures started == !old(busy)
      ensures View() == if old(busy) then old(View()) else old(View()).Start()
      ensures started ==> View().Receiving() && View().Part() == []
    {
      if busy {
        return false;
      }
      busy, received, expected, headerDone := true, 0, FRAME_HEADER_SIZE, false;
      buffer := Resize(buffer, FRAME_HEADER_SIZE);
      started := true;
    }

    /** The stream has put `data` into the buffer, or failed. */
    method OnRead(failed: bool, data: seq<octet>) returns (done: Option<Completion>)
      requires View().Receiving() && (!failed ==> 0 < |data| <= expected - received)
      modifies this
      ensures failed ==> done == Some(ReadError) && View() == old(View()).(busy := false)
      ensures !failed ==> (View(), done) == old(View()).OnRead(data)
    {
      if failed {
        busy := false;
        return Some(ReadError);
      }
      buffer := buffer[..received] + data + buffer[received + |data|..];
      received := received + |data|;
      if received < expected {
        return None;
      }
      if headerDone {
        done := Complete();
        return;
      }
      var length := DecodeFrameLength(buffer);
      if length > maxPayload {
        busy := false;
        return Some(InvalidRecord);
      }
      headerDone, received, expected := true, 0, length;
      buffer := Resize(buffer, length);
      if length == 0 {
        done := Complete();
      } else {
        done := None;
      }
    }

    /** complete without an error. */
    method Complete() returns (done: Option<Completion>)
      modifies this`busy, this`buffer
      ensures done == Some(Payload(old(buffer))) && !busy && buffer == []
    {
      busy := false;
      done := Some(Payload(buffer));
      buffer := [];
    }
  }
}
