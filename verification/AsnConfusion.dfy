/** When an absent optional field is taken for the element after it. With the tag condition
    of AsnRoundTrip, this makes the round trip exact for schemas whose optional fields are
    firm. */
module AsnConfusion {
  import opened Octets
  import opened AsnHeader
  import opened AsnInteger
  import opened AsnSchema
  import opened AsnDecode
  import opened AsnRoundTrip
  import opened Options

  /** The value came out and no sequence was left open. */
  predicate Clean<T(==)>(r: Outcome<T>, v: T, st: State) {
    r.Ok? && r.value == v && |r.state.ends| == |st.ends|
  }

  /** A firm schema whose tag comes next is never found missing with all closed again. */
  lemma {:induction false} FirmTaken(data: seq<octet>, st: State, s: Schema)
    requires st.pos < |data| && !AtEnd(st) && Firm(s) && (st.pending.Some? ==> UsesTag(s))
    requires match ReadHeader(data, st.pos)
      case NoParse => true
      case Got(h, _) => (h.cls, h.tag) == HeadTag(s, st.pending)
    ensures var r := Decode(data, st, s); r.Missing? ==> |r.state.ends| > |st.ends|
    decreases s
  {
    if s.Implicit? {
      FirmTaken(data, st.(pending := Some(s.tag)), s.inner);
    }
  }

  lemma {:induction false} UntoldElement(data: seq<octet>, st: State, v: Value, s: Schema)
    requires HasType(v, s) && Writable(v, s) && FirmOptionals(s) && !Told(v, s)
    requires |data| < TWO64 && At(data, st.pos, ValueOctets(v, s, st.pending))
    requires Inside(st, |ValueOctets(v, s, st.pending)|)
    ensures !Clean(Decode(data, st, s), v, st)
    decreases s, 1, 0
  {
    hide Decode, Lies, Body;
    var at, body := BodyAt(data, st, v, s);
    match s
    case Prim(_) =>
    case Implicit(t, inner) =>
      ImplicitStep(data, st, v, t, inner);
      UntoldElement(data, st.(pending := Some(t)), v, inner);
    case _ =>
      StructureAt(data, st, v, s, at);
      UntoldStructure(data, st, v, s, at);
  }

  lemma {:induction false} UntoldStructure(data: seq<octet>, st: State, v: Value, s: Schema, at: nat)
    requires HasType(v, s) && Writable(v, s) && FirmOptionals(s) && !Told(v, s) && !s.Prim? && !s.Implicit?
    requires |data| < TWO64 && At(data, at, Body(v, s, st.pending))
    requires var size := |Body(v, s, st.pending)|;
      Structure(data, st, TagHeader(if s.Explicit? then Some(s.tag) else st.pending, TAG_SEQUENCE, size, true), at, size)
    ensures !Clean(Decode(data, st, s), v, st)
    decreases s, 0, 0
  {
    hide Decode, DecodeFields, DecodeItems, HeaderOctets, Structure, TagHeader, At, ValueOctets, Clean;
    var body := Body(v, s, st.pending);
    match s
    case Sequence(fields) =>
      UntoldFields(data, State(at, [at + |body|] + st.ends, None), v.fields, fields);
      UncleanSequence(data, st, fields, at, |body|, v.fields);
    case Container(e) =>
      UntoldItems(data, State(at, [at + |body|] + st.ends, None), v.items, e);
      UncleanContainer(data, st, e, at, |body|, v.items);
    case Explicit(t, inner) =>
      UntoldElement(data, State(at, [at + |body|] + st.ends, st.pending), v, inner);
      UncleanExplicit(data, st, t, inner, at, |body|, v);
  }

  lemma UncleanSequence(data: seq<octet>, st: State, fields: seq<Field>, at: nat, size: nat, vs: seq<Option<Value>>)
    requires Structure(data, st, TagHeader(st.pending, TAG_SEQUENCE, size, true), at, size)
    requires var inside := State(at, [at + size] + st.ends, None); !Clean(DecodeFields(data, inside, fields), vs, inside)
    ensures !Clean(Decode(data, st, Sequence(fields)), VStruct(vs), st)
  {
    hide HeaderOctets, OpenTagged, DecodeFields;
    OpenTaggedHeader(data, st, TAG_SEQUENCE, size, true);
  }

  lemma UncleanContainer(data: seq<octet>, st: State, e: Schema, at: nat, size: nat, vs: seq<Value>)
    requires Structure(data, st, TagHeader(st.pending, TAG_SEQUENCE, size, true), at, size)
    requires var inside := State(at, [at + size] + st.ends, None); !Clean(DecodeItems(data, inside, e), vs, inside)
    ensures !Clean(Decode(data, st, Container(e)), VList(vs), st)
  {
    hide HeaderOctets, OpenTagged, DecodeItems;
    OpenTaggedHeader(data, st, TAG_SEQUENCE, size, true);
  }

  lemma UncleanExplicit(data: seq<octet>, st: State, t: tagnum, inner: Schema, at: nat, size: nat, v: Value)
    requires Structure(data, st, TagHeader(Some(t), TAG_SEQUENCE, size, true), at, size)
    requires var inside := State(at, [at + size] + st.ends, st.pending); !Clean(Decode(data, inside, inner), v, inside)
    ensures !Clean(Decode(data, st, Explicit(t, inner)), v, st)
  {
    hide HeaderOctets, Open;
    OpenHeader(data, st, TagHeader(Some(t), TAG_SEQUENCE, size, true));
  }

  lemma {:induction false} UntoldItems(data: seq<octet>, st: State, vs: seq<Value>, e: Schema)
    requires ItemsHaveType(vs, e) && ItemsWritable(vs, e) && FirmOptionals(e) && !ItemsTold(vs, e)
    requires |data| < TWO64 && At(data, st.pos, ItemsOctets(vs, e)) && st.pending == None
    requires st.ends != [] && st.ends[0] == st.pos + |ItemsOctets(vs, e)|
    ensures !Clean(DecodeItems(data, st, e), vs, st)
    decreases e, 2, |vs|
  {
    hide Decode, ValueOctets, Fits, Writable, Told, HasType, FirmOptionals;
    var first, rest := ValueOctets(vs[0], e, None), ItemsOctets(vs[1..], e);
    AtSplit(data, st.pos, first, rest);
    if Told(vs[0], e) {
      ElementRoundTrip(data, st, vs[0], e);
      UntoldItems(data, After(st, |first|), vs[1..], e);
    } else {
      UntoldElement(data, st, vs[0], e);
    }
  }

  lemma {:induction false} UntoldFields(data: seq<octet>, st: State, vs: seq<Option<Value>>, fs: seq<Field>)
    requires FieldsHaveType(vs, fs) && FieldsWritable(vs, fs) && FieldsFirm(fs) && !FieldsTold(vs, fs)
    requires |data| < TWO64 && At(data, st.pos, FieldsOctets(vs, fs)) && st.pending == None
    requires st.ends != [] && st.ends[0] == st.pos + |FieldsOctets(vs, fs)|
    ensures !Clean(DecodeFields(data, st, fs), vs, st)
    decreases fs, 0, 0
  {
    hide Decode, HeadTag, ReadHeader, HeaderOctets, ValueOctets, HasType, Writable, Fits, Told, UsesTag, FirmOptionals;
    assert fs[0].schema < fs[0];
    var rest := FieldsOctets(vs[1..], fs[1..]);
    if vs[0].Some? {
      var first := ValueOctets(vs[0].value, fs[0].schema, None);
      AtSplit(data, st.pos, first, rest);
      if Told(vs[0].value, fs[0].schema) {
        ElementRoundTrip(data, st, vs[0].value, fs[0].schema);
        UntoldFields(data, After(st, |first|), vs[1..], fs[1..]);
      } else {
        UntoldElement(data, st, vs[0].value, fs[0].schema);
      }
    } else {
      assert FieldsOctets(vs, fs) == rest;
      if rest != [] {
        var h, tail := FirstHeader(vs[1..], fs[1..], |st.ends|);
        AtSplit(data, st.pos, HeaderOctets(h), tail);
        HeaderRoundTrip(data, st.pos, h);
      } else {
        EmptyFields(vs[1..], fs[1..]);
      }
      FirmTagUsed(fs[0].schema);
      if AbsenceTold(fs[0].schema, vs[1..], fs[1..]) {
        AbsentElement(data, st, fs[0].schema);
        UntoldFields(data, st, vs[1..], fs[1..]);
      } else {
        FirmTaken(data, st, fs[0].schema);
      }
    }
  }

  lemma FirmTagUsed(s: Schema)
    requires Firm(s)
    ensures s.Implicit? ==> UsesTag(s)
  {
  }

  lemma {:induction false} EmptyFields(vs: seq<Option<Value>>, fs: seq<Field>)
    requires FieldsHaveType(vs, fs) && FieldsWritable(vs, fs) && FieldsOctets(vs, fs) == []
    ensures NextTag(vs, fs) == None
    decreases |fs|
  {
    if fs != [] {
      EmptyFields(vs[1..], fs[1..]);
    }
  }

  /** The round trip, exactly: on a schema whose optional fields are firm, decoding gives
      the value back and ends cleanly just after its encoding if and only if sizes and
      depth are within the limits and every absent field differs in tag from what comes
      next. */
  lemma RoundTripExactly(v: Value, s: Schema, more: seq<octet>)
    requires HasType(v, s) && Writable(v, s) && FirmOptionals(s)
    requires |ValueOctets(v, s, None) + more| < TWO64
    ensures var o := ValueOctets(v, s, None);
      (Decode(o + more, State(0, [], None), s) == Ok(v, State(|o|, [], None)))
        <==> (Fits(v, s, None, 0) && Told(v, s))
  {
    hide Decode, ValueOctets, Fits, Told, FirmOptionals;
    var o, st := ValueOctets(v, s, None), State(0, [], None);
    if Told(v, s) {
      RoundTrip(v, s, more);
    } else {
      assert (o + more)[0..|o|] == o;
      UntoldElement(o + more, st, v, s);
    }
  }

  // ---- inputs ----

  const SMALL := Prim(Integer(true, 1))
  const FIVE := VInt(5)

  lemma FiveOctets()
    ensures HasType(FIVE, SMALL) && Writable(FIVE, SMALL) && Fits(FIVE, SMALL, None, 1)
    ensures ValueOctets(FIVE, SMALL, None) == [2, 1, 5]
  {
    assert Pow(256, 1) == 256;
    assert IntegerOctets(5) == [5];
  }

  lemma OneMandatory(s: Schema, v: Value)
    requires HasType(v, s) && Writable(v, s)
    ensures FieldsHaveType([Some(v)], [Field(false, s)]) && FieldsWritable([Some(v)], [Field(false, s)])
    ensures FieldsOctets([Some(v)], [Field(false, s)]) == ValueOctets(v, s, None)
    ensures FieldsFit([Some(v)], [Field(false, s)], 1) == Fits(v, s, None, 1)
    ensures NextTag([Some(v)], [Field(false, s)]) == Some(HeadTag(s, None))
    ensures Told(v, s) ==> FieldsTold([Some(v)], [Field(false, s)])
    ensures FirmOptionals(s) ==> FieldsFirm([Field(false, s)])
  {
    var fs, vs := [Field(false, s)], [Some(v)];
    assert fs[1..] == [] && vs[1..] == [];
    assert ValueOctets(v, s, None) + [] == ValueOctets(v, s, None);
  }

  lemma OneAbsent(a: Schema, vs: seq<Option<Value>>, fs: seq<Field>)
    requires FieldsHaveType(vs, fs) && FieldsWritable(vs, fs)
    ensures FieldsHaveType([None] + vs, [Field(true, a)] + fs) && FieldsWritable([None] + vs, [Field(true, a)] + fs)
    ensures FieldsOctets([None] + vs, [Field(true, a)] + fs) == FieldsOctets(vs, fs)
    ensures FieldsFit([None] + vs, [Field(true, a)] + fs, 1) == FieldsFit(vs, fs, 1)
    ensures FieldsTold([None] + vs, [Field(true, a)] + fs) ==> AbsenceTold(a, vs, fs)
    ensures FirmOptionals(a) && Firm(a) && FieldsFirm(fs) ==> FieldsFirm([Field(true, a)] + fs)
    ensures FieldsFirm([Field(true, a)] + fs) ==> Firm(a)
  {
    var gs, ws := [Field(true, a)] + fs, [None] + vs;
    assert gs[1..] == fs && ws[1..] == vs;
    assert [] + FieldsOctets(vs, fs) == FieldsOctets(vs, fs);
  }

  lemma ShortHeader(tag: tagnum, length: nat)
    requires tag <= 30 && length <= 127
    ensures HeaderOctets(Header(UNIVERSAL, tag, length, true)) == [32 + tag, length]
  {
  }

  /** An absent optional integer takes the integer after it, which is then missing itself. */
  lemma AbsentFieldTakesTheNext()
    ensures var s, v := Sequence([Field(true, SMALL)] + [Field(false, SMALL)]), VStruct([None] + [Some(FIVE)]);
      && HasType(v, s) && Writable(v, s) && FirmOptionals(s) && Fits(v, s, None, 0) && !Told(v, s)
      && ValueOctets(v, s, None) == [48, 3, 2, 1, 5]
      && Decode([48, 3, 2, 1, 5], State(0, [], None), s) != Ok(v, State(5, [], None))
  {
    var s, v := Sequence([Field(true, SMALL)] + [Field(false, SMALL)]), VStruct([None] + [Some(FIVE)]);
    FiveOctets();
    OneMandatory(SMALL, FIVE);
    OneAbsent(SMALL, [Some(FIVE)], [Field(false, SMALL)]);
    ShortHeader(TAG_SEQUENCE, 3);
    hide Decode, FieldsOctets, FieldsHaveType, FieldsWritable, FieldsTold, FieldsFirm, FieldsFit;
    assert ValueOctets(v, s, None) == [48, 3] + [2, 1, 5];
    assert [48, 3, 2, 1, 5] + [] == [48, 3, 2, 1, 5];
    RoundTripExactly(v, s, []);
  }

  const FLAG_INSIDE := Sequence([Field(false, Prim(Boolean))])
  const NUMBER_INSIDE := Sequence([Field(false, SMALL)])
  const FIVE_INSIDE := VStruct([Some(FIVE)])

  lemma FiveInsideOctets()
    ensures HasType(FIVE_INSIDE, NUMBER_INSIDE) && Writable(FIVE_INSIDE, NUMBER_INSIDE)
    ensures Told(FIVE_INSIDE, NUMBER_INSIDE) && Fits(FIVE_INSIDE, NUMBER_INSIDE, None, 1)
    ensures ValueOctets(FIVE_INSIDE, NUMBER_INSIDE, None) == [48, 3, 2, 1, 5]
  {
    FiveOctets();
    OneMandatory(SMALL, FIVE);
    ShortHeader(TAG_SEQUENCE, 3);
    assert FieldsFit([Some(FIVE)], [Field(false, SMALL)], 2) by {
      assert Fits(FIVE, SMALL, None, 2);
    }
    hide FieldsOctets, FieldsHaveType, FieldsWritable, FieldsTold, FieldsFit;
    assert ValueOctets(FIVE_INSIDE, NUMBER_INSIDE, None) == [48, 3] + [2, 1, 5];
  }

  /** The attempt at the absent sequence opens the one that is there, misses the flag in
      it, and leaves through the end. */
  lemma AttemptMisses(data: seq<octet>)
    requires data == [48, 5, 48, 3, 2, 1, 5]
    ensures Decode(data, State(2, [7], None), FLAG_INSIDE) == Missing(State(7, [7], None))
  {
    var fs := [Field(false, Prim(Boolean))];
    assert ReadHeader(data, 2) == Got(Header(UNIVERSAL, TAG_SEQUENCE, 3, true), 4);
    assert ReadHeader(data, 4) == Got(Header(UNIVERSAL, TAG_INTEGER, 1, false), 6);
    assert OpenTagged(data, State(2, [7], None), TAG_SEQUENCE)
        == Ok(Header(UNIVERSAL, TAG_SEQUENCE, 3, true), State(4, [7], None));
    assert [7] + [7] == [7, 7];
    assert Decode(data, State(4, [7, 7], None), Prim(Boolean)) == Missing(State(6, [7, 7], None));
    assert DecodeFields(data, State(4, [7, 7], None), fs) == Missing(State(6, [7, 7], None));
    assert [7, 7][1..] == [7];
  }

  /** An optional sequence looks into the element after it and can still find that it is
      not meant: for structured optional fields the tag condition is not needed in every
      case. */
  lemma SequenceLooksInside()
    ensures var s := Sequence([Field(true, FLAG_INSIDE)] + [Field(false, NUMBER_INSIDE)]);
      var v := VStruct([None] + [Some(FIVE_INSIDE)]);
      && HasType(v, s) && Writable(v, s) && !FirmOptionals(s) && !Told(v, s)
      && ValueOctets(v, s, None) == [48, 5, 48, 3, 2, 1, 5]
      && Decode([48, 5, 48, 3, 2, 1, 5], State(0, [], None), s) == Ok(v, State(7, [], None))
  {
    var fs, vs := [Field(false, NUMBER_INSIDE)], [Some(FIVE_INSIDE)];
    var s, v := Sequence([Field(true, FLAG_INSIDE)] + fs), VStruct([None] + vs);
    hide Decode, ValueOctets;
    FiveInsideOctets();
    OneMandatory(NUMBER_INSIDE, FIVE_INSIDE);
    OneAbsent(FLAG_INSIDE, vs, fs);
    assert !AbsenceTold(FLAG_INSIDE, vs, fs) && !Firm(FLAG_INSIDE);
    hide FieldsOctets, FieldsHaveType, FieldsWritable, FieldsTold, FieldsFit, FieldsFirm;
    StructureHead(v.fields, s.fields, 5);
    assert [48, 5] + [48, 3, 2, 1, 5] == [48, 5, 48, 3, 2, 1, 5];
    SkipDecodes([48, 5, 48, 3, 2, 1, 5], fs, vs);
  }

  lemma StructureHead(vs: seq<Option<Value>>, fs: seq<Field>, size: nat)
    requires FieldsHaveType(vs, fs) && FieldsWritable(vs, fs) && |FieldsOctets(vs, fs)| == size <= 127
    ensures ValueOctets(VStruct(vs), Sequence(fs), None) == [48, size] + FieldsOctets(vs, fs)
  {
    ShortHeader(TAG_SEQUENCE, size);
    hide FieldsOctets, HeaderOctets;
  }

  lemma SkipDecodes(data: seq<octet>, fs: seq<Field>, vs: seq<Option<Value>>)
    requires data == [48, 5, 48, 3, 2, 1, 5]
    requires fs == [Field(false, NUMBER_INSIDE)] && vs == [Some(FIVE_INSIDE)]
    ensures Decode(data, State(0, [], None), Sequence([Field(true, FLAG_INSIDE)] + fs))
      == Ok(VStruct([None] + vs), State(7, [], None))
  {
    var gs := [Field(true, FLAG_INSIDE)] + fs;
    assert gs[1..] == fs;
    AttemptMisses(data);
    FiveInsideOctets();
    OneMandatory(NUMBER_INSIDE, FIVE_INSIDE);
    ShortHeader(TAG_SEQUENCE, 5);
    assert data[2..7] == [48, 3, 2, 1, 5] && data[0..2] == [48, 5];
    FieldsRoundTrip(data, State(2, [7], None), vs, fs);
    hide Decode, FieldsHaveType, FieldsWritable, FieldsTold, HeaderOctets;
    assert DecodeFields(data, State(2, [7], None), gs) == Ok([None] + vs, State(7, [7], None));
    assert [7] + [] == [7];
    SequenceStep(data, State(0, [], None), gs, 2, 5, [None] + vs, true);
  }
}
