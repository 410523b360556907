/** Decoding what was encoded. If every absent optional field differs in tag from what
    comes next, the value comes back, with the position just after its encoding and nothing
    left open, when sizes and depth are within the decoder's limits, and otherwise decoding
    fails. AsnConfusion says what happens without the tag condition. */
module AsnRoundTrip {
  import opened Octets
  import opened AsnInteger
  import opened AsnHeader
  import opened AsnReal
  import opened AsnSchema
  import opened AsnDecode
  import opened Options

  lemma ContentRoundTrip(v: Value, p: Primitive)
    requires PrimitiveType(v, p) && PrimitiveEncodable(v, p)
    ensures DecodeContent(p, Content(v, p)) ==
      if p == BigInteger && v.o == [] then None else Some(v)
  {
    match p
    case Boolean =>
      assert Pow(256, 1) == 256;
      TypedIntegerRoundTrip(if v.b then 1 else 0, true, 1);
    case Integer(isSigned, w) => TypedIntegerRoundTrip(v.i, isSigned, w);
    case RealNumber =>
      RealSize(v.r);
      RealRoundTrip(v.r);
    case BigInteger =>
    case Text =>
    case OctetString =>
  }

  lemma RealSize(r: Real)
    requires Encodable(r)
    ensures |RealOctets(r)| <= 14
  {
    if r.Normal? {
      var s := r.significand;
      ExponentSize(r.exponent, s);
      OddPartAtMost(s);
      assert Pow(256, 7) == 0x100_0000_0000_0000;
      MinDigitsIsLeast(OddPart(s), 256, 7);
    }
  }

  // ---- opening an encoded element ----

  lemma OpenHeader(data: seq<octet>, st: State, h: Header)
    requires Representable(h) && At(data, st.pos, HeaderOctets(h)) && !AtEnd(st)
    ensures st.pos < |data|
    ensures Open(data, st, h.cls, h.tag) ==
      if h.length > Limit(h) then Malformed else Ok(h, st.(pos := st.pos + |HeaderOctets(h)|))
  {
    HeaderRoundTrip(data, st.pos, h);
  }

  lemma OpenTaggedHeader(data: seq<octet>, st: State, default: tagnum, length: nat, constructed: bool)
    requires At(data, st.pos, HeaderOctets(TagHeader(st.pending, default, length, constructed))) && !AtEnd(st)
    ensures st.pos < |data|
    ensures var h := TagHeader(st.pending, default, length, constructed);
      OpenTagged(data, st, default) ==
      if h.length > Limit(h) then Malformed else Ok(h, After(st, |HeaderOctets(h)|))
  {
    hide Open, HeaderOctets;
    OpenHeader(data, st.(pending := None), TagHeader(st.pending, default, length, constructed));
  }

  /** The state after an element of the given size has been read. */
  function After(st: State, size: nat): State {
    State(st.pos + size, st.ends, None)
  }

  /** Room for the element before the innermost end. */
  predicate Inside(st: State, size: nat) {
    st.ends != [] ==> st.pos + size <= st.ends[0]
  }

  lemma {:induction false} ElementRoundTrip(data: seq<octet>, st: State, v: Value, s: Schema)
    requires HasType(v, s) && Writable(v, s) && Told(v, s)
    requires |data| < TWO64 && At(data, st.pos, ValueOctets(v, s, st.pending))
    requires Inside(st, |ValueOctets(v, s, st.pending)|)
    ensures Decode(data, st, s) ==
      if Fits(v, s, st.pending, |st.ends|) then Ok(v, After(st, |ValueOctets(v, s, st.pending)|)) else Malformed
    decreases s, 1, 0
  {
    hide Decode, Lies, Fits, Body;
    var at, body := BodyAt(data, st, v, s);
    match s
    case Implicit(t, inner) =>
      ImplicitStep(data, st, v, t, inner);
      ElementRoundTrip(data, st.(pending := Some(t)), v, inner);
    case Prim(p) =>
      PrimStep(data, st, v, p, at);
    case _ =>
      StructureAt(data, st, v, s, at);
      StructureRoundTrip(data, st, v, s, at);
  }

  lemma {:induction false} StructureRoundTrip(data: seq<octet>, st: State, v: Value, s: Schema, at: nat)
    requires HasType(v, s) && Writable(v, s) && Told(v, s) && !s.Prim? && !s.Implicit?
    requires |data| < TWO64 && At(data, at, Body(v, s, st.pending))
    requires var size := |Body(v, s, st.pending)|;
      Structure(data, st, TagHeader(if s.Explicit? then Some(s.tag) else st.pending, TAG_SEQUENCE, size, true), at, size)
    ensures Decode(data, st, s) ==
      if Fits(v, s, st.pending, |st.ends|) then Ok(v, State(at + |Body(v, s, st.pending)|, st.ends, None)) else Malformed
    decreases s, 0, 0
  {
    hide Decode, DecodeFields, DecodeItems, HeaderOctets, Structure, TagHeader, At, ValueOctets;
    var body := Body(v, s, st.pending);
    match s
    case Sequence(fields) =>
      FieldsRoundTrip(data, State(at, [at + |body|] + st.ends, None), v.fields, fields);
      SequenceStep(data, st, fields, at, |body|, v.fields, FieldsFit(v.fields, fields, |st.ends| + 1));
    case Container(e) =>
      ItemsRoundTrip(data, State(at, [at + |body|] + st.ends, None), v.items, e);
      ContainerStep(data, st, e, at, |body|, v.items, ItemsFit(v.items, e, |st.ends| + 1));
    case Explicit(t, inner) =>
      ElementRoundTrip(data, State(at, [at + |body|] + st.ends, st.pending), v, inner);
      ExplicitStep(data, st, t, inner, at, |body|, v, Fits(v, inner, st.pending, |st.ends| + 1));
  }

  /** Where the content of an encoded element lies. */
  lemma BodyAt(data: seq<octet>, st: State, v: Value, s: Schema) returns (at: nat, body: seq<octet>)
    requires HasType(v, s) && Writable(v, s) && At(data, st.pos, ValueOctets(v, s, st.pending))
    requires |data| < TWO64 && Inside(st, |ValueOctets(v, s, st.pending)|)
    ensures Lies(data, st, v, s, at) && body == Body(v, s, st.pending) && At(data, at, body)
    ensures st.pos + |ValueOctets(v, s, st.pending)| == at + |body| <= |data|
  {
    hide HeaderOctets, Head, Body;
    at := st.pos + |HeaderOctets(Head(v, s, st.pending))|;
    body := Body(v, s, st.pending);
    AtSplit(data, st.pos, HeaderOctets(Head(v, s, st.pending)), body);
  }

  /** The common ground of the steps: an encoded element lies at the position, with its
      content from `at` on. */
  ghost predicate Lies(data: seq<octet>, st: State, v: Value, s: Schema, at: nat) {
    && HasType(v, s) && Writable(v, s) && |data| < TWO64
    && at == st.pos + |HeaderOctets(Head(v, s, st.pending))|
    && At(data, st.pos, HeaderOctets(Head(v, s, st.pending)))
    && At(data, at, Body(v, s, st.pending))
    && Inside(st, at + |Body(v, s, st.pending)| - st.pos)
  }

  lemma PrimStep(data: seq<octet>, st: State, v: Value, p: Primitive, at: nat)
    requires Lies(data, st, v, Prim(p), at)
    ensures Decode(data, st, Prim(p)) ==
      if Fits(v, Prim(p), st.pending, |st.ends|) then Ok(v, State(at + |Body(v, Prim(p), st.pending)|, st.ends, None)) else Malformed
  {
    hide DecodeContent, Content, HeaderOctets, OpenTagged;
    OpenTaggedHeader(data, st, DefaultTag(p), |Content(v, p)|, false);
    ContentRoundTrip(v, p);
  }

  lemma ImplicitStep(data: seq<octet>, st: State, v: Value, t: tagnum, inner: Schema)
    requires HasType(v, Implicit(t, inner)) && Writable(v, Implicit(t, inner)) && st.pos <= |data|
    ensures Decode(data, st, Implicit(t, inner)) == Decode(data, st.(pending := Some(t)), inner)
    ensures ValueOctets(v, Implicit(t, inner), st.pending) == ValueOctets(v, inner, Some(t))
    ensures Fits(v, Implicit(t, inner), st.pending, |st.ends|) == Fits(v, inner, Some(t), |st.ends|)
  {
  }

  lemma StructureAt(data: seq<octet>, st: State, v: Value, s: Schema, at: nat)
    requires Lies(data, st, v, s, at) && !s.Prim? && !s.Implicit?
    ensures Structure(data, st,
              TagHeader(if s.Explicit? then Some(s.tag) else st.pending, TAG_SEQUENCE, |Body(v, s, st.pending)|, true),
              at, |Body(v, s, st.pending)|)
  {
    hide HeaderOctets, Body;
  }

  /** The header of a structure lies at the position; its content, of the given size,
      starts at `at`. */
  predicate Structure(data: seq<octet>, st: State, h: Header, at: nat, size: nat) {
    && Representable(h) && h.constructed && h.length == size
    && At(data, st.pos, HeaderOctets(h)) && at == st.pos + |HeaderOctets(h)|
    && at + size <= |data| && !AtEnd(st)
  }

  predicate Admitted(st: State, size: nat) {
    size <= MAX_CONSTRUCTED && |st.ends| < MAX_DEPTH
  }

  lemma SequenceStep(data: seq<octet>, st: State, fields: seq<Field>, at: nat, size: nat, vs: seq<Option<Value>>, fit: bool)
    requires Structure(data, st, TagHeader(st.pending, TAG_SEQUENCE, size, true), at, size)
    requires DecodeFields(data, State(at, [at + size] + st.ends, None), fields) ==
      if fit then Ok(vs, State(at + size, [at + size] + st.ends, None)) else Malformed
    ensures Decode(data, st, Sequence(fields)) ==
      if fit && Admitted(st, size) then Ok(VStruct(vs), State(at + size, st.ends, None)) else Malformed
  {
    hide HeaderOctets, OpenTagged, DecodeFields;
    OpenTaggedHeader(data, st, TAG_SEQUENCE, size, true);
  }

  lemma ContainerStep(data: seq<octet>, st: State, e: Schema, at: nat, size: nat, vs: seq<Value>, fit: bool)
    requires Structure(data, st, TagHeader(st.pending, TAG_SEQUENCE, size, true), at, size)
    requires DecodeItems(data, State(at, [at + size] + st.ends, None), e) ==
      if fit then Ok(vs, State(at + size, [at + size] + st.ends, None)) else Malformed
    ensures Decode(data, st, Container(e)) ==
      if fit && Admitted(st, size) then Ok(VList(vs), State(at + size, st.ends, None)) else Malformed
  {
    hide HeaderOctets, OpenTagged, DecodeItems;
    OpenTaggedHeader(data, st, TAG_SEQUENCE, size, true);
  }

  lemma ExplicitStep(data: seq<octet>, st: State, t: tagnum, inner: Schema, at: nat, size: nat, v: Value, fit: bool)
    requires Structure(data, st, TagHeader(Some(t), TAG_SEQUENCE, size, true), at, size)
    requires Decode(data, State(at, [at + size] + st.ends, st.pending), inner) ==
      if fit then Ok(v, State(at + size, [at + size] + st.ends, None)) else Malformed
    ensures Decode(data, st, Explicit(t, inner)) ==
      if fit && Admitted(st, size) then Ok(v, State(at + size, st.ends, None)) else Malformed
  {
    hide HeaderOctets, Open;
    OpenHeader(data, st, TagHeader(Some(t), TAG_SEQUENCE, size, true));
  }

  lemma {:induction false} ItemsRoundTrip(data: seq<octet>, st: State, vs: seq<Value>, e: Schema)
    requires ItemsHaveType(vs, e) && ItemsWritable(vs, e) && ItemsTold(vs, e)
    requires |data| < TWO64 && At(data, st.pos, ItemsOctets(vs, e)) && st.pending == None
    requires st.ends != [] && st.ends[0] == st.pos + |ItemsOctets(vs, e)|
    ensures DecodeItems(data, st, e) ==
      if ItemsFit(vs, e, |st.ends|) then Ok(vs, After(st, |ItemsOctets(vs, e)|)) else Malformed
    decreases e, 2, |vs|
  {
    hide Decode, ValueOctets, Fits, Writable, Told, HasType;
    if vs != [] {
      var first, rest := ValueOctets(vs[0], e, None), ItemsOctets(vs[1..], e);
      AtSplit(data, st.pos, first, rest);
      ElementRoundTrip(data, st, vs[0], e);
      ItemsRoundTrip(data, After(st, |first|), vs[1..], e);
      assert [vs[0]] + vs[1..] == vs;
    }
  }

  // ---- optional fields ----

  /** The first header in the encoding of a field list carries the tag of its first
      present field, and is over the limit only when the fields do not fit. */
  lemma {:induction false} FirstHeader(vs: seq<Option<Value>>, fs: seq<Field>, depth: nat) returns (h: Header, rest: seq<octet>)
    requires FieldsHaveType(vs, fs) && FieldsWritable(vs, fs) && FieldsOctets(vs, fs) != []
    requires |FieldsOctets(vs, fs)| < TWO64
    ensures Representable(h) && FieldsOctets(vs, fs) == HeaderOctets(h) + rest
    ensures h.tag < TWO64 && NextTag(vs, fs) == Some((h.cls, h.tag))
    ensures h.length > Limit(h) ==> !FieldsFit(vs, fs, depth)
    decreases fs
  {
    hide Head, Body, HeaderOctets, Fits, Writable, HasType, HeadTag;
    if vs[0].Some? {
      var v, s := vs[0].value, fs[0].schema;
      h := Head(v, s, None);
      rest := Body(v, s, None) + FieldsOctets(vs[1..], fs[1..]);
      HeadProperties(v, s, None, depth);
      assert HeaderOctets(h) + (Body(v, s, None) + FieldsOctets(vs[1..], fs[1..]))
          == (HeaderOctets(h) + Body(v, s, None)) + FieldsOctets(vs[1..], fs[1..]);
    } else {
      assert [] + FieldsOctets(vs[1..], fs[1..]) == FieldsOctets(vs[1..], fs[1..]);
      h, rest := FirstHeader(vs[1..], fs[1..], depth);
    }
  }

  lemma {:induction false} HeadProperties(v: Value, s: Schema, pending: Option<tagnum>, depth: nat)
    requires HasType(v, s) && Writable(v, s) && |Body(v, s, pending)| < TWO64
    ensures (Head(v, s, pending).cls, Head(v, s, pending).tag) == HeadTag(s, pending)
    ensures Head(v, s, pending).length > Limit(Head(v, s, pending)) ==> !Fits(v, s, pending, depth)
    decreases s
  {
    if s.Implicit? {
      HeadProperties(v, s.inner, Some(s.tag), depth);
    }
  }

  /** Trying for an element when another one, or the end, comes next. */
  lemma {:induction false} AbsentElement(data: seq<octet>, st: State, s: Schema)
    requires st.pos <= |data| && (s.Implicit? ==> UsesTag(s)) && (st.pending.Some? ==> UsesTag(s))
    requires !AtEnd(st) && (st.ends != [] || st.pos < |data|) ==>
      match ReadHeader(data, st.pos)
      case NoParse => true
      case Got(h, _) => (h.cls, h.tag) != HeadTag(s, st.pending)
    ensures var r := Decode(data, st, s);
      if (AtEnd(st) || (st.ends == [] && st.pos == |data|)) || ReadHeader(data, st.pos).Got?
      then r.Missing? && r.state.ends == st.ends && r.state.pending == None
      else r.Malformed?
    decreases s
  {
    if s.Implicit? {
      AbsentElement(data, st.(pending := Some(s.tag)), s.inner);
    }
  }

  lemma {:induction false} FieldsRoundTrip(data: seq<octet>, st: State, vs: seq<Option<Value>>, fs: seq<Field>)
    requires FieldsHaveType(vs, fs) && FieldsWritable(vs, fs) && FieldsTold(vs, fs)
    requires |data| < TWO64 && At(data, st.pos, FieldsOctets(vs, fs)) && st.pending == None
    requires st.ends != [] && st.ends[0] == st.pos + |FieldsOctets(vs, fs)|
    ensures DecodeFields(data, st, fs) ==
      if FieldsFit(vs, fs, |st.ends|) then Ok(vs, After(st, |FieldsOctets(vs, fs)|)) else Malformed
    decreases fs, 0, 0
  {
    hide Decode, HeadTag, ReadHeader, HeaderOctets, ValueOctets, HasType, Writable, Fits, Told, UsesTag;
    if fs != [] {
      assert fs[0].schema < fs[0];
      assert [vs[0]] + vs[1..] == vs;
      var rest := FieldsOctets(vs[1..], fs[1..]);
      if vs[0].Some? {
        var first := ValueOctets(vs[0].value, fs[0].schema, None);
        AtSplit(data, st.pos, first, rest);
        ElementRoundTrip(data, st, vs[0].value, fs[0].schema);
        FieldsRoundTrip(data, After(st, |first|), vs[1..], fs[1..]);
      } else {
        assert FieldsOctets(vs, fs) == rest;
        if rest != [] {
          var h, tail := FirstHeader(vs[1..], fs[1..], |st.ends|);
          AtSplit(data, st.pos, HeaderOctets(h), tail);
          HeaderRoundTrip(data, st.pos, h);
        }
        AbsentElement(data, st, fs[0].schema);
        FieldsRoundTrip(data, st, vs[1..], fs[1..]);
      }
    }
  }

  /** encode then decode, whatever bytes follow. */
  lemma RoundTrip(v: Value, s: Schema, more: seq<octet>)
    requires HasType(v, s) && Writable(v, s) && Told(v, s)
    requires |ValueOctets(v, s, None) + more| < TWO64
    ensures var data := ValueOctets(v, s, None) + more;
      Decode(data, State(0, [], None), s) ==
        if Fits(v, s, None, 0) then Ok(v, State(|ValueOctets(v, s, None)|, [], None)) else Malformed
  {
    var o := ValueOctets(v, s, None);
    assert (o + more)[0..|o|] == o;
    ElementRoundTrip(o + more, State(0, [], None), v, s);
  }
}
