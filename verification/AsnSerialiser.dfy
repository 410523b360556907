/** asn_der_encoder as an object over an output stream, and the serialiser that drives it
    from typed values (securepath/serialisation/serialiser.hpp). */
module AsnSerialiser {
  import opened Octets
  import opened AsnInteger
  import opened AsnUtil
  import opened AsnHeader
  import opened AsnRealLoops
  import opened AsnSchema
  import opened AsnEncoder
  import opened OctetStream
  import opened Options

  class Encoder {
    const stream: VectorSink
    var layers: seq<Layer>

    ghost function View(): EncoderState
      reads this, stream
    {
      EncoderState(stream.vec, layers)
    }

    /** The stream is being appended to, and every open layer has a header to write. */
    ghost predicate Valid()
      reads this, stream
    {
      stream.writePos == |stream.vec| && forall i :: 0 <= i < |layers| ==> Representable(layers[i].header)
    }

    constructor (stream: VectorSink)
      requires stream.writePos == |stream.vec|
      ensures Valid() && this.stream == stream && View() == EncoderState(stream.vec, [])
    {
      this.stream := stream;
      layers := [];
    }

    method Write(b: seq<octet>)
      requires Valid()
      modifies this, stream
      ensures Valid() && View() == old(View()).Append(b)
    {
      if layers == [] {
        stream.Write(b);
      } else {
        layers := layers[0 := layers[0].(data := layers[0].data + b)];
      }
    }

    method StartLayer(h: Header)
      requires Valid() && Representable(h)
      modifies this
      ensures Valid() && View() == old(View()).Start(h)
    {
      layers := [Layer(h, [])] + layers;
    }

    method StartSequence(tag: Option<tagnum>)
      requires Valid()
      modifies this
      ensures Valid() && View() == old(View()).Start(TagHeader(tag, TAG_SEQUENCE, 0, true))
    {
      StartLayer(TagHeader(tag, TAG_SEQUENCE, 0, true));
    }

    method EndSequence()
      requires Valid() && layers != []
      modifies this, stream
      ensures Valid() && View() == old(View()).End()
    {
      ghost var st := View();
      var top := layers[0];
      layers := layers[1..];
      var h := top.header.(length := Wrap64(|top.data|));
      EncodeHeader(h);
      if top.data != [] {
        Write(top.data);
      }
      ghost var below := st.(layers := st.layers[1..]);
      below.AppendTwice(HeaderOctets(h), top.data);
      below.Append(HeaderOctets(h)).AppendNothing();
    }

    method EncodeHeader(h: Header)
      requires Valid() && Representable(h)
      modifies this, stream
      ensures Valid() && View() == old(View()).Append(HeaderOctets(h))
    {
      ghost var st := View();
      EncodeTag(h);
      EncodeLength(h);
      st.AppendTwice(TagOctets(h), LengthOctets(h.length));
    }

    method EncodeTag(h: Header)
      requires Valid() && Representable(h)
      modifies this, stream
      ensures Valid() && View() == old(View()).Append(TagOctets(h))
    {
      ghost var st := View();
      if h.tag > 30 {
        Write([FirstOctet(h.cls, 31, h.constructed)]);
        var septets := LongTag(h.tag);
        Write(septets);
        st.AppendTwice([FirstOctet(h.cls, 31, h.constructed)], septets);
      } else {
        Write([FirstOctet(h.cls, h.tag, h.constructed)]);
      }
    }

    method LongTag(tag: tagnum) returns (septets: seq<octet>)
      ensures septets == Septets(tag)
    {
      var buffer := new octet[10];
      BlockBases();
      TagDigits(tag);
      WidthCovers(tag, 8, 64);
      var ok, length := EncodeToOctets(tag, 64, buffer, 8, false, 7, 128);
      buffer[length - 1] := buffer[length - 1] - 128;
      septets := buffer[..length];
    }

    method EncodeLength(h: Header)
      requires Valid() && Representable(h)
      modifies this, stream
      ensures Valid() && View() == old(View()).Append(LengthOctets(h.length))
    {
      ghost var st := View();
      if h.length > 127 {
        var octets := LongLength(h.length);
        Write([128 + |octets|]);
        Write(octets);
        st.AppendTwice([128 + |octets|], octets);
      } else {
        Write([h.length]);
      }
    }

    method LongLength(length: nat) returns (octets: seq<octet>)
      requires length < TWO64
      ensures octets == Digits(length, MinDigits(length, 256), 256) && |octets| <= 8
    {
      var buffer := new octet[8];
      BlockBases();
      LengthDigits(length);
      WidthCovers(length, 8, 64);
      var ok, size := EncodeToOctets(length, 64, buffer, 8, false, 8, 0);
      octets := buffer[..size];
      assert forall i :: 0 <= i < size ==> octets[i] == Digits(length, size, 256)[i];
    }

    /** Any primitive: its content octets under its header, unless it is refused. */
    method EncodePrimitive(v: Value, p: Primitive, tag: Option<tagnum>) returns (ok: bool)
      requires Valid() && PrimitiveType(v, p)
      modifies this, stream
      ensures ok <==> PrimitiveEncodable(v, p)
      ensures ok ==> Valid() && View() == old(View()).Append(ValueOctets(v, Prim(p), tag))
    {
      ghost var st := View();
      var content: seq<octet>;
      ok, content := PrimitiveContent(v, p);
      if ok {
        var h := TagHeader(tag, DefaultTag(p), |content|, false);
        EncodeHeader(h);
        Write(content);
        st.AppendTwice(HeaderOctets(h), content);
      }
    }

    method PrimitiveContent(v: Value, p: Primitive) returns (ok: bool, content: seq<octet>)
      requires PrimitiveType(v, p)
      ensures ok <==> PrimitiveEncodable(v, p)
      ensures ok ==> content == Content(v, p)
    {
      ok, content := true, [];
      match p
      case Boolean =>
        assert Pow(256, 1) == 256;
        content := IntegerContent(if v.b then 1 else 0, true, 1);
      case Integer(isSigned, w) =>
        content := IntegerContent(v.i, isSigned, w);
      case RealNumber =>
        var buffer := new octet[14];
        var length;
        ok, length := EncodeReal(v.r, buffer);
        if ok {
          content := buffer[..length];
        }
      case BigInteger => content := v.o;
      case Text =>
        ok := |v.o| <= MAX_PRIMITIVE;
        content := v.o;
      case OctetString =>
        ok := |v.o| <= MAX_PRIMITIVE;
        content := v.o;
    }

    method IntegerContent(i: int, isSigned: bool, w: nat) returns (content: seq<octet>)
      requires 1 <= w <= 8 && InType(i, isSigned, w)
      ensures content == IntegerOctets(i)
    {
      var buffer := new octet[9];
      IntegerSizeInType(i, isSigned, w);
      var ok, length := EncodeInteger(i, 64, buffer, w);
      content := buffer[..length];
    }
  }

  lemma IntegerSizeInType(i: int, isSigned: bool, w: nat)
    requires 1 <= w <= 8 && InType(i, isSigned, w)
    ensures IntegerSize(i) <= 9
    ensures if i < 0 then SignedFits(i, w) else i < Pow(256, w)
  {
    if isSigned {
      IntegerBound(i, w);
    } else {
      UnsignedSize(i, w);
    }
  }

  /** The serialiser keeps the implicit tag waiting for the next element. */
  class Serialiser {
    const enc: Encoder
    var currentTag: Option<tagnum>

    constructor (enc: Encoder)
      ensures this.enc == enc && currentTag == None
    {
      this.enc := enc;
      currentTag := None;
    }

    method UseCurrentTag() returns (tag: Option<tagnum>)
      modifies this
      ensures tag == old(currentTag) && currentTag == None
    {
      tag := currentTag;
      currentTag := None;
    }

    /** Write a value: refused exactly when it holds something the encoder refuses,
        otherwise exactly its recursive encoding is appended. */
    method Serialise(v: Value, s: Schema) returns (ok: bool)
      requires enc.Valid() && HasType(v, s)
      modifies this, enc, enc.stream
      ensures ok <==> Writable(v, s)
      ensures ok ==> enc.Valid() && currentTag == None
      ensures ok ==> enc.View() == old(enc.View()).Append(ValueOctets(v, s, old(currentTag)))
      decreases s, 1, 0
    {
      match s
      case Prim(p) =>
        var tag := UseCurrentTag();
        ok := enc.EncodePrimitive(v, p, tag);
      case Implicit(t, inner) =>
        currentTag := Some(t);
        ok := Serialise(v, inner);
        if ok {
          ImplicitOctets(v, t, inner, None);
        }
      case Sequence(fields) =>
        ghost var st := enc.View();
        var tag := UseCurrentTag();
        enc.StartSequence(tag);
        ok := SerialiseFields(v.fields, fields);
        if ok {
          CloseLayer(v, s, tag, st);
        }
      case Container(e) =>
        ghost var st := enc.View();
        var tag := UseCurrentTag();
        enc.StartSequence(tag);
        ok := SerialiseItems(v.items, e);
        if ok {
          CloseLayer(v, s, tag, st);
        }
      case Explicit(t, inner) =>
        ghost var st, pending := enc.View(), currentTag;
        enc.StartLayer(TagHeader(Some(t), TAG_SEQUENCE, 0, true));
        ok := Serialise(v, inner);
        if ok {
          CloseLayer(v, s, pending, st);
        }
    }

    /** Close the layer that was opened on st and has been filled with the content. */
    method CloseLayer(ghost v: Value, ghost s: Schema, ghost tag: Option<tagnum>, ghost st: EncoderState)
      requires HasType(v, s) && Writable(v, s) && !s.Prim? && !s.Implicit? && enc.Valid()
      requires var h := TagHeader(if s.Explicit? then Some(s.tag) else tag, TAG_SEQUENCE, 0, true);
        enc.View() == st.Start(h).Append(Body(v, s, tag))
      modifies enc, enc.stream
      ensures enc.Valid() && enc.View() == st.Append(ValueOctets(v, s, tag))
    {
      hide ValueOctets, Body, HeaderOctets;
      ghost var h := TagHeader(if s.Explicit? then Some(s.tag) else tag, TAG_SEQUENCE, 0, true);
      st.StartEnd(h, Body(v, s, tag));
      StructureOctets(v, s, tag, h);
      enc.EndSequence();
    }

    method SerialiseFields(vs: seq<Option<Value>>, fs: seq<Field>) returns (ok: bool)
      requires enc.Valid() && FieldsHaveType(vs, fs) && currentTag == None
      modifies this, enc, enc.stream
      ensures ok <==> FieldsWritable(vs, fs)
      ensures ok ==> enc.Valid() && currentTag == None
      ensures ok ==> enc.View() == old(enc.View()).Append(FieldsOctets(vs, fs))
      decreases fs, 0, 0
    {
      ghost var st := enc.View();
      ok := true;
      if fs == [] {
        st.AppendNothing();
        return;
      }
      assert fs[0].schema < fs[0];
      if vs[0].Some? {
        ok := Serialise(vs[0].value, fs[0].schema);
      }
      if ok {
        ghost var first := if vs[0].Some? then ValueOctets(vs[0].value, fs[0].schema, None) else [];
        st.AppendNothing();
        ok := SerialiseFields(vs[1..], fs[1..]);
        if ok {
          st.AppendTwice(first, FieldsOctets(vs[1..], fs[1..]));
        }
      }
    }

    method SerialiseItems(vs: seq<Value>, e: Schema) returns (ok: bool)
      requires enc.Valid() && ItemsHaveType(vs, e) && currentTag == None
      modifies this, enc, enc.stream
      ensures ok <==> ItemsWritable(vs, e)
      ensures ok ==> enc.Valid() && currentTag == None
      ensures ok ==> enc.View() == old(enc.View()).Append(ItemsOctets(vs, e))
      decreases e, 2, |vs|
    {
      ghost var st := enc.View();
      var i := 0;
      ok := true;
      assert vs[0..] == vs;
      while i < |vs|
        invariant 0 <= i <= |vs| && enc.Valid() && currentTag == None
        invariant ItemsHaveType(vs[i..], e)
        invariant ItemsWritable(vs, e) <==> ItemsWritable(vs[i..], e)
        invariant ItemsWritable(vs, e) ==>
          st.Append(ItemsOctets(vs, e)) == enc.View().Append(ItemsOctets(vs[i..], e))
      {
        assert vs[i..][1..] == vs[i + 1..];
        ghost var before := enc.View();
        ok := Serialise(vs[i], e);
        if !ok {
          return;
        }
        if ItemsWritable(vs, e) {
          before.AppendTwice(ValueOctets(vs[i], e, None), ItemsOctets(vs[i + 1..], e));
        }
        i := i + 1;
      }
      enc.View().AppendNothing();
    }
  }

  /** asn_der_serialise into a fresh vector. */
  method AsnDerSerialise(v: Value, s: Schema) returns (ok: bool, octets: seq<octet>)
    requires HasType(v, s)
    ensures ok <==> Writable(v, s)
    ensures ok ==> octets == ValueOctets(v, s, None)
  {
    var sink := new VectorSink([], 0);
    var enc := new Encoder(sink);
    var ser := new Serialiser(enc);
    ok := ser.Serialise(v, s);
    octets := sink.vec;
    assert forall b: seq<octet> :: [] + b == b;
  }
}
