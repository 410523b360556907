/** securepath/serialisation/codec/asn_der/asn_der_encoder.hpp and the serialiser over it:
    a stack of open layers, each written out with its header when it closes. */
module AsnEncoder {
  import opened Octets
  import opened AsnHeader
  import opened AsnSchema
  import opened Options

  datatype Layer = Layer(header: Header, data: seq<octet>)

  /** Bytes in the stream and the open layers, innermost first. */
  datatype EncoderState = EncoderState(out: seq<octet>, layers: seq<Layer>) {
    function Append(b: seq<octet>): EncoderState {
      if layers == [] then this.(out := out + b)
      else this.(layers := [Layer(layers[0].header, layers[0].data + b)] + layers[1..])
    }

    function Start(h: Header): EncoderState {
      this.(layers := [Layer(h, [])] + layers)
    }

    /** Pop a layer; its header gets the length of what it holds. */
    function End(): EncoderState
      requires layers != [] && Representable(layers[0].header)
    {
      var top := layers[0];
      this.(layers := layers[1..])
      .Append(HeaderOctets(top.header.(length := Wrap64(|top.data|))) + top.data)
    }

    lemma AppendTwice(a: seq<octet>, b: seq<octet>)
      ensures Append(a).Append(b) == Append(a + b)
    {
      if layers == [] {
        assert out + a + b == out + (a + b);
      } else {
        assert layers[0].data + a + b == layers[0].data + (a + b);
      }
    }

    lemma AppendNothing()
      ensures Append([]) == this
    {
      if layers == [] {
        assert out + [] == out;
      } else {
        assert layers[0].data + [] == layers[0].data;
        assert [layers[0]] + layers[1..] == layers;
      }
    }

    /** A layer opened, filled and closed is one element in the layer below. */
    lemma StartEnd(h: Header, body: seq<octet>)
      requires Representable(h)
      ensures var filled := Start(h).Append(body);
        filled.layers != [] && filled.layers[0].header == h
        && filled.End() == Append(HeaderOctets(h.(length := Wrap64(|body|))) + body)
    {
      var filled := Start(h).Append(body);
      assert [] + body == body;
      assert filled.layers[1..] == layers;
    }
  }

  // ---- the order of events ----

  datatype Event = StartLayer(header: Header) | Data(octets: seq<octet>) | EndLayer

  /** The encoder calls made for a value. */
  function Events(v: Value, s: Schema, pending: Option<tagnum>): seq<Event>
    requires HasType(v, s) && Writable(v, s)
    decreases s, 1, 0
  {
    match s
    case Implicit(t, inner) => Events(v, inner, Some(t))
    case Prim(p) => [Data(ValueOctets(v, s, pending))]
    case Sequence(fields) =>
      [StartLayer(TagHeader(pending, TAG_SEQUENCE, 0, true))] + FieldEvents(v.fields, fields) + [EndLayer]
    case Container(e) =>
      [StartLayer(TagHeader(pending, TAG_SEQUENCE, 0, true))] + ItemEvents(v.items, e) + [EndLayer]
    case Explicit(t, inner) =>
      [StartLayer(TagHeader(Some(t), TAG_SEQUENCE, 0, true))] + Events(v, inner, pending) + [EndLayer]
  }

  function FieldEvents(vs: seq<Option<Value>>, fs: seq<Field>): seq<Event>
    requires FieldsHaveType(vs, fs) && FieldsWritable(vs, fs)
    decreases fs, 0, 0
  {
    if fs == [] then [] else
      assert fs[0].schema < fs[0];
      (if vs[0].Some? then Events(vs[0].value, fs[0].schema, None) else []) + FieldEvents(vs[1..], fs[1..])
  }

  function ItemEvents(vs: seq<Value>, e: Schema): seq<Event>
    requires ItemsHaveType(vs, e) && ItemsWritable(vs, e)
    decreases e, 2, |vs|
  {
    if vs == [] then [] else Events(vs[0], e, None) + ItemEvents(vs[1..], e)
  }

  /** Layers closed by the events were opened by them. */
  predicate Runnable(st: EncoderState, events: seq<Event>)
    decreases |events|
  {
    events != [] ==>
      && (events[0].EndLayer? ==> st.layers != [] && Representable(st.layers[0].header))
      && Runnable(Step(st, events[0]), events[1..])
  }

  function Step(st: EncoderState, e: Event): EncoderState
    requires e.EndLayer? ==> st.layers != [] && Representable(st.layers[0].header)
  {
    match e
    case StartLayer(h) => st.Start(h)
    case Data(b) => st.Append(b)
    case EndLayer => st.End()
  }

  function Run(st: EncoderState, events: seq<Event>): EncoderState
    requires Runnable(st, events)
    decreases |events|
  {
    if events == [] then st else Run(Step(st, events[0]), events[1..])
  }

  lemma {:induction false} RunConcat(st: EncoderState, a: seq<Event>, b: seq<Event>)
    requires Runnable(st, a) && Runnable(Run(st, a), b)
    ensures Runnable(st, a + b) && Run(st, a + b) == Run(Run(st, a), b)
    decreases |a|
  {
    if a == [] {
      assert a + b == b;
    } else {
      assert (a + b)[1..] == a[1..] + b;
      RunConcat(Step(st, a[0]), a[1..], b);
    }
  }

  /** While it runs, the events never close the lowest `floor` layers, and with a layer
      open nothing reaches the stream. */
  predicate Held(st: EncoderState, events: seq<Event>, floor: nat)
    requires Runnable(st, events)
    decreases |events|
  {
    && |st.layers| >= floor
    && (events != [] ==> Held(Step(st, events[0]), events[1..], floor)
                         && (floor > 0 ==> Step(st, events[0]).out == st.out))
  }

  lemma {:induction false} HeldConcat(st: EncoderState, a: seq<Event>, b: seq<Event>, floor: nat)
    requires Runnable(st, a) && Runnable(Run(st, a), b)
    requires Held(st, a, floor) && Held(Run(st, a), b, floor)
    ensures Runnable(st, a + b) && Held(st, a + b, floor)
    decreases |a|
  {
    RunConcat(st, a, b);
    if a == [] {
      assert a + b == b;
    } else {
      assert (a + b)[1..] == a[1..] + b;
      HeldConcat(Step(st, a[0]), a[1..], b, floor);
    }
  }

  lemma {:induction false} HeldWeaker(st: EncoderState, events: seq<Event>, floor: nat, lower: nat)
    requires Runnable(st, events) && Held(st, events, floor) && lower <= floor
    ensures Held(st, events, lower)
    decreases |events|
  {
    if events != [] {
      HeldWeaker(Step(st, events[0]), events[1..], floor, lower);
    }
  }

  /** Making the calls for a value appends its recursive encoding to the innermost open
      layer, or to the stream when there is none, and never disturbs the layers below. */
  lemma {:induction false} EventsWrite(v: Value, s: Schema, pending: Option<tagnum>, st: EncoderState)
    requires HasType(v, s) && Writable(v, s)
    ensures var events := Events(v, s, pending);
      Runnable(st, events) && Run(st, events) == st.Append(ValueOctets(v, s, pending))
      && Held(st, events, |st.layers|)
    decreases s, 1, 0
  {
    hide ValueOctets, EncoderState.Append, EncoderState.Start, EncoderState.End;
    match s
    case Implicit(t, inner) =>
      EventsWrite(v, inner, Some(t), st);
      ImplicitOctets(v, t, inner, pending);
    case Prim(p) =>
      OneEvent(st, ValueOctets(v, s, pending));
    case Sequence(fields) =>
      var h := TagHeader(pending, TAG_SEQUENCE, 0, true);
      FieldEventsWrite(v.fields, fields, st.Start(h));
      LayerEvents(st, h, FieldEvents(v.fields, fields), FieldsOctets(v.fields, fields));
      StructureOctets(v, s, pending, h);
    case Container(e) =>
      var h := TagHeader(pending, TAG_SEQUENCE, 0, true);
      ItemEventsWrite(v.items, e, st.Start(h));
      LayerEvents(st, h, ItemEvents(v.items, e), ItemsOctets(v.items, e));
      StructureOctets(v, s, pending, h);
    case Explicit(t, inner) =>
      var h := TagHeader(Some(t), TAG_SEQUENCE, 0, true);
      EventsWrite(v, inner, pending, st.Start(h));
      LayerEvents(st, h, Events(v, inner, pending), ValueOctets(v, inner, pending));
      StructureOctets(v, s, pending, h);
  }

  lemma ImplicitOctets(v: Value, t: tagnum, inner: Schema, pending: Option<tagnum>)
    requires HasType(v, inner) && Writable(v, inner)
    ensures ValueOctets(v, Implicit(t, inner), pending) == ValueOctets(v, inner, Some(t))
  {
  }

  lemma StructureOctets(v: Value, s: Schema, pending: Option<tagnum>, h: Header)
    requires HasType(v, s) && Writable(v, s) && !s.Prim? && !s.Implicit?
    requires h == TagHeader(if s.Explicit? then Some(s.tag) else pending, TAG_SEQUENCE, 0, true)
    ensures var body := Body(v, s, pending);
      ValueOctets(v, s, pending) == HeaderOctets(h.(length := Wrap64(|body|))) + body
  {
    hide HeaderOctets, Body;
    assert Head(v, s, pending) == h.(length := Wrap64(|Body(v, s, pending)|));
  }

  lemma OneEvent(st: EncoderState, b: seq<octet>)
    ensures Runnable(st, [Data(b)]) && Run(st, [Data(b)]) == st.Append(b)
    ensures Held(st, [Data(b)], |st.layers|)
  {
    assert [Data(b)][1..] == [];
  }

  /** A layer around events that append `body`. */
  lemma LayerEvents(st: EncoderState, h: Header, inner: seq<Event>, body: seq<octet>)
    requires Representable(h) && Runnable(st.Start(h), inner)
    requires Run(st.Start(h), inner) == st.Start(h).Append(body)
    requires Held(st.Start(h), inner, |st.Start(h).layers|)
    ensures var events := [StartLayer(h)] + inner + [EndLayer];
      Runnable(st, events) && Held(st, events, |st.layers|)
      && Run(st, events) == st.Append(HeaderOctets(h.(length := Wrap64(|body|))) + body)
  {
    hide HeaderOctets;
    st.StartEnd(h, body);
    var last := st.Start(h).Append(body);
    assert [EndLayer][1..] == [];
    assert Runnable(last, [EndLayer]) && Run(last, [EndLayer]) == last.End();
    HeldWeaker(st.Start(h), inner, |st.Start(h).layers|, |st.layers|);
    assert Held(last, [EndLayer], |st.layers|);
    RunConcat(st.Start(h), inner, [EndLayer]);
    HeldConcat(st.Start(h), inner, [EndLayer], |st.layers|);
    var events := [StartLayer(h)] + inner + [EndLayer];
    assert events[1..] == inner + [EndLayer];
  }

  lemma {:induction false} FieldEventsWrite(vs: seq<Option<Value>>, fs: seq<Field>, st: EncoderState)
    requires FieldsHaveType(vs, fs) && FieldsWritable(vs, fs)
    ensures var events := FieldEvents(vs, fs);
      Runnable(st, events) && Run(st, events) == st.Append(FieldsOctets(vs, fs)) && Held(st, events, |st.layers|)
    decreases fs, 0, 0
  {
    hide ValueOctets, EncoderState.Append, Events;
    if fs == [] {
      st.AppendNothing();
    } else {
      assert fs[0].schema < fs[0];
      var first := if vs[0].Some? then ValueOctets(vs[0].value, fs[0].schema, None) else [];
      var events := if vs[0].Some? then Events(vs[0].value, fs[0].schema, None) else [];
      if vs[0].Some? {
        EventsWrite(vs[0].value, fs[0].schema, None, st);
      } else {
        st.AppendNothing();
      }
      var next := st.Append(first);
      FieldEventsWrite(vs[1..], fs[1..], next);
      Join(st, events, first, FieldEvents(vs[1..], fs[1..]), FieldsOctets(vs[1..], fs[1..]));
    }
  }

  lemma {:induction false} ItemEventsWrite(vs: seq<Value>, e: Schema, st: EncoderState)
    requires ItemsHaveType(vs, e) && ItemsWritable(vs, e)
    ensures var events := ItemEvents(vs, e);
      Runnable(st, events) && Run(st, events) == st.Append(ItemsOctets(vs, e)) && Held(st, events, |st.layers|)
    decreases e, 2, |vs|
  {
    hide ValueOctets, EncoderState.Append, Events;
    if vs == [] {
      st.AppendNothing();
    } else {
      var first := ValueOctets(vs[0], e, None);
      EventsWrite(vs[0], e, None, st);
      ItemEventsWrite(vs[1..], e, st.Append(first));
      Join(st, Events(vs[0], e, None), first, ItemEvents(vs[1..], e), ItemsOctets(vs[1..], e));
    }
  }

  lemma Join(st: EncoderState, a: seq<Event>, x: seq<octet>, b: seq<Event>, y: seq<octet>)
    requires Runnable(st, a) && Run(st, a) == st.Append(x) && Held(st, a, |st.layers|)
    requires Runnable(st.Append(x), b) && Run(st.Append(x), b) == st.Append(x).Append(y)
    requires Held(st.Append(x), b, |st.Append(x).layers|)
    ensures Runnable(st, a + b) && Run(st, a + b) == st.Append(x + y) && Held(st, a + b, |st.layers|)
  {
    RunConcat(st, a, b);
    HeldConcat(st, a, b, |st.layers|);
    st.AppendTwice(x, y);
  }

  lemma {:induction false} HeldPrefix(st: EncoderState, events: seq<Event>, floor: nat, k: nat)
    requires Runnable(st, events) && Held(st, events, floor) && floor > 0 && k <= |events|
    ensures Runnable(st, events[..k]) && Run(st, events[..k]).out == st.out
    decreases k
  {
    if k > 0 {
      assert events[..k][1..] == events[1..][..k - 1];
      HeldPrefix(Step(st, events[0]), events[1..], floor, k - 1);
    }
  }

  predicate Structured(s: Schema) {
    match s
    case Prim(_) => false
    case Implicit(_, inner) => Structured(inner)
    case _ => true
  }

  /** Nothing reaches the stream until the outermost layer closes. */
  lemma {:induction false} NothingBeforeClose(v: Value, s: Schema, pending: Option<tagnum>, out: seq<octet>, k: nat)
    requires HasType(v, s) && Writable(v, s) && Structured(s) && k < |Events(v, s, pending)|
    ensures var st, events := EncoderState(out, []), Events(v, s, pending)[..k];
      Runnable(st, events) && Run(st, events).out == out
    decreases s
  {
    var st, events := EncoderState(out, []), Events(v, s, pending);
    if s.Implicit? {
      NothingBeforeClose(v, s.inner, Some(s.tag), out, k);
    } else if k > 0 {
      var h := events[0].header;
      var inner := events[1..|events| - 1];
      InnerHeld(v, s, pending, st);
      HeldPrefix(st.Start(h), inner, 1, k - 1);
      assert events[..k][1..] == inner[..k - 1];
    }
  }

  lemma InnerHeld(v: Value, s: Schema, pending: Option<tagnum>, st: EncoderState)
    requires HasType(v, s) && Writable(v, s) && !s.Prim? && !s.Implicit? && st.layers == []
    ensures var events := Events(v, s, pending);
      events[0].StartLayer? && |events| >= 2
      && Runnable(st.Start(events[0].header), events[1..|events| - 1])
      && Held(st.Start(events[0].header), events[1..|events| - 1], 1)
  {
    var events := Events(v, s, pending);
    var h := events[0].header;
    match s
    case Sequence(fields) =>
      assert events[1..|events| - 1] == FieldEvents(v.fields, fields);
      FieldEventsWrite(v.fields, fields, st.Start(h));
    case Container(e) =>
      assert events[1..|events| - 1] == ItemEvents(v.items, e);
      ItemEventsWrite(v.items, e, st.Start(h));
    case Explicit(t, inner) =>
      assert events[1..|events| - 1] == Events(v, inner, pending);
      EventsWrite(v, inner, pending, st.Start(h));
  }
}
