/** packet_deserialiser_base of securepath/serialisation/util.hpp: whole elements out of
    a byte stream that arrives in arbitrary chunks. */
module Deframer {
  import opened Octets
  import opened AsnHeader
  import opened AsnSchema
  import opened AsnDeserialiser
  import opened OctetStream
  import opened Options

  /** Cut whole elements off the front; the remainder holds no whole element. */
  function Split(s: seq<octet>): (seq<seq<octet>>, seq<octet>)
    decreases |s|
  {
    var n := NextElement(s, 0);
    if n == 0 then ([], s) else
      var (elements, rest) := Split(s[n..]);
      ([s[..n]] + elements, rest)
  }

  class PacketDeserialiser {
    const maxSize: nat
    var buf: seq<octet>

    constructor (maxSize: nat)
      ensures this.maxSize == maxSize && buf == []
    {
      this.maxSize := maxSize;
      buf := [];
    }

    /** Take in a chunk; `elements` are those handed to the callback, in order. */
    method DoCheck(data: seq<octet>) returns (ok: bool, elements: seq<seq<octet>>)
      modifies this
      ensures ok <==> old(|buf|) + |data| <= maxSize
      ensures !ok ==> elements == [] && buf == old(buf)
      ensures ok ==> (elements, buf) == Split(old(buf) + data)
    {
      hide Split;
      elements := [];
      ok := |buf| + |data| <= maxSize;
      if !ok {
        return;
      }
      var pos: nat;
      if buf == [] {
        assert buf + data == data;
        elements, pos := TakeElements(data);
        assert [] + data[pos..] == data[pos..];
        buf := buf + data[pos..];
      } else {
        buf := buf + data;
        elements, pos := TakeElements(buf);
        buf := buf[pos..];
      }
    }

    method Clear()
      modifies this
      ensures buf == []
    {
      buf := [];
    }
  }

  /** deser_func without the callback: how long the element at the front is. */
  method FirstElement(s: seq<octet>) returns (length: nat)
    ensures length == NextElement(s, 0)
  {
    hide NextElement, ReadHeader;
    var stream := new SpanStream(s);
    var buffered := new BufferedStream(stream);
    var input := new Decoder(buffered);
    length := input.HasNext();
  }

  lemma SplitNone(s: seq<octet>)
    requires NextElement(s, 0) == 0
    ensures Split(s) == ([], s)
  {
  }

  lemma SplitFirst(s: seq<octet>, n: nat)
    requires n == NextElement(s, 0) > 0
    ensures n <= |s| && Split(s).0 == [s[..n]] + Split(s[n..]).0 && Split(s).1 == Split(s[n..]).1
  {
    hide NextElement;
  }

  /** One round of the loop. */
  lemma TakeStep(elements: seq<seq<octet>>, data: seq<octet>, pos: nat, n: nat)
    requires pos <= |data| && n == NextElement(data[pos..], 0) > 0
    ensures pos + n <= |data|
    ensures elements + Split(data[pos..]).0
         == elements + [data[pos..pos + n]] + Split(data[pos + n..]).0
    ensures Split(data[pos..]).1 == Split(data[pos + n..]).1
  {
    hide NextElement, Split;
    var rest := data[pos..];
    SplitFirst(rest, n);
    assert rest[n..] == data[pos + n..] && rest[..n] == data[pos..pos + n];
  }

  /** The loop of do_check. */
  method TakeElements(data: seq<octet>) returns (elements: seq<seq<octet>>, pos: nat)
    ensures pos <= |data| && (elements, data[pos..]) == Split(data)
  {
    hide NextElement, Split;
    elements, pos := [], 0;
    assert data[0..] == data && [] + Split(data).0 == Split(data).0;
    while true
      invariant pos <= |data|
      invariant Split(data).0 == elements + Split(data[pos..]).0
      invariant Split(data).1 == Split(data[pos..]).1
      decreases |data| - pos
    {
      var length := FirstElement(data[pos..]);
      if length == 0 {
        SplitNone(data[pos..]);
        assert elements + [] == elements;
        return;
      }
      TakeStep(elements, data, pos, length);
      elements := elements + [data[pos..pos + length]];
      pos := pos + length;
    }
  }

  // ---- chunking does not matter ----

  lemma NextElementStable(s: seq<octet>, more: seq<octet>)
    requires NextElement(s, 0) > 0
    ensures NextElement(s + more, 0) == NextElement(s, 0)
  {
    HeaderStable(s, more, 0);
  }

  /** Splitting in two goes is splitting at once. */
  lemma {:induction false} SplitConcat(a: seq<octet>, b: seq<octet>)
    ensures Split(a + b).0 == Split(a).0 + Split(Split(a).1 + b).0
    ensures Split(a + b).1 == Split(Split(a).1 + b).1
    decreases |a|
  {
    hide NextElement, Split;
    var n := NextElement(a, 0);
    if n == 0 {
      SplitNone(a);
      assert [] + Split(a + b).0 == Split(a + b).0;
    } else {
      SplitFirst(a, n);
      SplitConcat(a[n..], b);
      NextElementStable(a, b);
      SplitFirst(a + b, n);
      assert (a + b)[n..] == a[n..] + b && (a + b)[..n] == a[..n];
    }
  }

  /** Elements and remainder after feeding the chunks one by one. */
  function Feed(buf: seq<octet>, chunks: seq<seq<octet>>): (seq<seq<octet>>, seq<octet>)
    decreases |chunks|
  {
    if chunks == [] then ([], buf) else
      var (now, rest) := Split(buf + chunks[0]);
      var (later, last) := Feed(rest, chunks[1..]);
      (now + later, last)
  }

  function Concat(chunks: seq<seq<octet>>): seq<octet> {
    if chunks == [] then [] else chunks[0] + Concat(chunks[1..])
  }

  /** A buffer that a chunk has been split out of holds no whole element. */
  lemma {:induction false} RestIsPartial(s: seq<octet>)
    ensures var (_, rest) := Split(s); Split(rest) == ([], rest)
    decreases |s|
  {
    var n := NextElement(s, 0);
    if n > 0 {
      RestIsPartial(s[n..]);
    }
  }

  /** Any chunking gives the elements and the remainder of the whole stream. */
  lemma {:induction false} FeedIsSplit(buf: seq<octet>, chunks: seq<seq<octet>>)
    requires Split(buf) == ([], buf)
    ensures Feed(buf, chunks) == Split(buf + Concat(chunks))
    decreases |chunks|
  {
    if chunks == [] {
      assert buf + [] == buf;
    } else {
      var (now, rest) := Split(buf + chunks[0]);
      RestIsPartial(buf + chunks[0]);
      FeedIsSplit(rest, chunks[1..]);
      SplitConcat(buf + chunks[0], Concat(chunks[1..]));
      assert buf + chunks[0] + Concat(chunks[1..]) == buf + Concat(chunks);
    }
  }

  // ---- what a sender put in comes out ----

  predicate IsElement(e: seq<octet>) {
    e != [] && NextElement(e, 0) == |e|
  }

  /** A value within the decoder's limits encodes as one element. */
  lemma EncodedIsElement(v: Value, s: Schema)
    requires HasType(v, s) && Writable(v, s) && Fits(v, s, None, 0)
    ensures IsElement(ValueOctets(v, s, None))
  {
    var h, body := Head(v, s, None), Body(v, s, None);
    BodyFits(v, s, None);
    var o := ValueOctets(v, s, None);
    assert o[0..0 + |HeaderOctets(h)|] == HeaderOctets(h);
    HeaderRoundTrip(o, 0, h);
  }

  lemma {:induction false} BodyFits(v: Value, s: Schema, pending: Option<tagnum>)
    requires HasType(v, s) && Writable(v, s) && Fits(v, s, pending, 0)
    ensures Head(v, s, pending).length == |Body(v, s, pending)| <= Limit(Head(v, s, pending))
    decreases s
  {
    if s.Implicit? {
      BodyFits(v, s.inner, Some(s.tag));
    }
  }

  /** Elements written one after the other and delivered in any chunks are handed over
      one by one, whole and in order, and nothing is left. */
  lemma {:induction false} ElementsSurvive(elements: seq<seq<octet>>)
    requires forall i :: 0 <= i < |elements| ==> IsElement(elements[i])
    ensures Split(Concat(elements)) == (elements, [])
    decreases |elements|
  {
    if elements != [] {
      var e, rest := elements[0], Concat(elements[1..]);
      NextElementStable(e, rest);
      ElementsSurvive(elements[1..]);
      assert (e + rest)[|e|..] == rest && (e + rest)[..|e|] == e;
      assert [e] + elements[1..] == elements;
    }
  }

  lemma DeframingIsLossless(elements: seq<seq<octet>>, chunks: seq<seq<octet>>)
    requires forall i :: 0 <= i < |elements| ==> IsElement(elements[i])
    requires Concat(chunks) == Concat(elements)
    ensures Feed([], chunks) == (elements, [])
  {
    assert [] + Concat(chunks) == Concat(chunks);
    FeedIsSplit([], chunks);
    ElementsSurvive(elements);
  }
}
