/** The octets on the wire, in the numbers of X.690 (sections 8.1 to 8.14): which
    identifier, length and content octets each kind of value gets. Both directions of the
    codec go through one table of tags, so that the round trip alone would not notice a
    wrong one. */
module AsnWire {
  import opened Octets
  import opened AsnInteger
  import opened AsnHeader
  import opened AsnReal
  import opened AsnSchema
  import opened Options

  // ---- identifier and length octets ----

  /** Big-endian base-128 number, the top bits left out. */
  function SeptetVal(s: seq<octet>): int {
    Val(seq(|s|, i requires 0 <= i < |s| => s[i] % 128), 128)
  }

  /** Section 8.1.2: class and form bits, then the number in five bits or, when it is above
      30, in septets of which all but the last are marked and the first is not zero. */
  predicate Identifies(o: seq<octet>, bits: nat, number: nat) {
    if number <= 30 then o == [bits + number]
    else
      && |o| >= 2 && o[0] == bits + 0x1F && o[1] != 0x80
      && (forall i :: 1 <= i < |o| - 1 ==> o[i] >= 0x80) && o[|o| - 1] < 0x80
      && SeptetVal(o[1..]) == number
  }

  /** Section 8.1.3: one octet up to 127, else how many octets follow and the shortest
      big-endian number. */
  predicate Counts(o: seq<octet>, length: nat) {
    if length <= 127 then o == [length]
    else 2 <= |o| <= 9 && o[0] == 0x80 + |o| - 1 && o[1] != 0 && UnsignedVal(o[1..]) == length
  }

  lemma TagForm(h: Header)
    requires Representable(h)
    ensures Identifies(TagOctets(h), h.cls * 0x40 + (if h.constructed then 0x20 else 0), h.tag)
  {
    if h.tag > 30 {
      var n := MinDigits(h.tag, 128);
      var d, s := Digits(h.tag, n, 128), Septets(h.tag);
      assert TagOctets(h)[1..] == s;
      assert seq(|s|, i requires 0 <= i < |s| => s[i] % 128) == d;
      SeptetsValue(h.tag);
      NoLeadingZero(h);
    }
  }

  lemma LengthForm(length: nat)
    requires length < TWO64
    ensures Counts(LengthOctets(length), length)
  {
    if length > 127 {
      var n := MinDigits(length, 256);
      LengthDigits(length);
      MinDigitsIsLeast(length, 256, n);
      ValDigits(length, n, 256);
      LeadingDigit(length, 256);
      assert LengthOctets(length)[1..] == Digits(length, n, 256);
    }
  }

  predicate Written(o: seq<octet>, bits: nat, number: nat, content: seq<octet>) {
    exists k, n :: 0 <= k <= n <= |o|
      && Identifies(o[..k], bits, number) && Counts(o[k..n], |content|) && o[n..] == content
  }

  /** Every encoding is identifier, length and content octets, the identifier being that of
      its kind: 0x01 boolean, 0x02 integer, 0x04 octet string, 0x09 real, 0x14 text, 0x30
      sequence and container, context class for a tag of its own. */
  lemma WireForm(v: Value, s: Schema, pending: Option<tagnum>)
    requires HasType(v, s) && Writable(v, s) && |Body(v, s, pending)| < TWO64
    ensures var o, content := ValueOctets(v, s, pending), Body(v, s, pending);
      && (s.Prim? && pending.Some? ==> Written(o, 0x80, pending.value, content))
      && (s.Prim? && pending.None? ==>
           && (s.p.Boolean? ==> Written(o, 0, 1, content))
           && (s.p.Integer? || s.p.BigInteger? ==> Written(o, 0, 2, content))
           && (s.p.OctetString? ==> Written(o, 0, 4, content))
           && (s.p.RealNumber? ==> Written(o, 0, 9, content))
           && (s.p.Text? ==> Written(o, 0, 20, content)))
      && (s.Sequence? || s.Container? ==>
           if pending.Some? then Written(o, 0xA0, pending.value, content) else Written(o, 0x20, 16, content))
      && (s.Explicit? ==> Written(o, 0xA0, s.tag, content))
      && (s.Implicit? ==> o == ValueOctets(v, s.inner, Some(s.tag)))
  {
    hide Identifies, Counts, TagOctets, LengthOctets;
    if !s.Implicit? {
      hide Body;
      var h, o := Head(v, s, pending), ValueOctets(v, s, pending);
      HeadLength(v, s, pending);
      TagForm(h);
      LengthForm(h.length);
      var k, n := |TagOctets(h)|, |HeaderOctets(h)|;
      assert o[..k] == TagOctets(h) && o[k..n] == LengthOctets(h.length) && o[n..] == Body(v, s, pending);
      assert Written(o, h.cls * 0x40 + (if h.constructed then 0x20 else 0), h.tag, Body(v, s, pending));
    }
  }

  lemma HeadLength(v: Value, s: Schema, pending: Option<tagnum>)
    requires HasType(v, s) && Writable(v, s) && |Body(v, s, pending)| < TWO64 && !s.Implicit?
    ensures Head(v, s, pending).length == |Body(v, s, pending)|
  {
  }

  /** What the encoder throws on: strings of more than two mebibytes, and subnormal reals. */
  lemma RefusedExactly(v: Value, p: Primitive)
    requires HasType(v, Prim(p))
    ensures Writable(v, Prim(p)) <==>
      (p.Text? || p.OctetString? ==> |v.o| <= 2097152) && (p.RealNumber? ==> v.r != Subnormal)
  {
  }

  // ---- content octets ----

  /** A boolean is one octet, 0 or 1; an integer the shortest two's-complement form;
      strings are their octets; an explicit tag wraps the whole inner encoding. */
  lemma ContentForm(v: Value, s: Schema, pending: Option<tagnum>)
    requires HasType(v, s) && Writable(v, s)
    ensures var content := Body(v, s, pending);
      && (s.Prim? ==>
           && (s.p.Boolean? ==> content == [if v.b then 1 else 0])
           && (s.p.Integer? ==> content != [] && TwosComplement(content) == v.i && Shortest(content))
           && (s.p.RealNumber? ==> RealForm(content, v.r))
           && (s.p.BigInteger? || s.p.Text? || s.p.OctetString? ==> content == v.o))
      && (s.Explicit? ==> content == ValueOctets(v, s.inner, pending))
  {
    if s.Prim? {
      match s.p
      case Boolean => BooleanOctets(v.b);
      case Integer(_, _) =>
        IntegerRoundTrip(v.i);
        ShortestIsCanonical(IntegerOctets(v.i));
      case RealNumber => RealOctetsForm(v.r);
      case _ =>
    }
  }

  lemma BooleanOctets(b: bool)
    ensures IntegerOctets(if b then 1 else 0) == [if b then 1 else 0]
  {
    var i := if b then 1 else 0;
    assert IntegerSize(i) == 1;
    assert Pow(256, 1) == 256;
    assert Digits(i, 1, 256) == Digits(i / 256, 0, 256) + [i % 256];
  }

  /** Section 8.5 in the canonical form of section 11.3.1: one octet or none for special
      values; else sign and exponent length, the exponent in two's complement, and an odd
      mantissa whose first octet is not zero, with mantissa * 2^exponent the value. */
  ghost predicate RealForm(o: seq<octet>, r: Real) {
    match r
    case Zero(negative) => o == if negative then [0x43] else []
    case Infinite(negative) => o == if negative then [0x41] else [0x40]
    case NaN => o == [0x42]
    case Normal(negative, s, e) =>
      exists k: nat, shift: nat :: NormalForm(o, k, negative, s, e, shift)
    case _ => false
  }

  predicate NormalForm(o: seq<octet>, k: nat, negative: bool, s: nat, e: int, shift: nat) {
    && 1 <= k <= 2 && |o| > 1 + k && o[0] == (if negative then 0xC0 else 0x80) + k - 1
    && TwosComplement(o[1..1 + k]) == e + shift && Shortest(o[1..1 + k])
    && o[1 + k] != 0 && UnsignedVal(o[1 + k..]) % 2 == 1
    && UnsignedVal(o[1 + k..]) * Pow2(shift) == s
  }

  lemma RealOctetsForm(r: Real)
    requires Encodable(r)
    ensures RealForm(RealOctets(r), r)
  {
    if r.Normal? {
      OctetsOfNormal(r);
      OddTimesTwos(r.significand);
      NormalOctetsForm(r.negative, r.significand, r.exponent, Twos(r.significand), OddPart(r.significand));
    }
  }

  lemma NormalOctetsForm(negative: bool, s: nat, e: int, shift: nat, m: nat)
    requires IntegerSize(e + shift) <= 2 && m % 2 == 1 && m * Pow2(shift) == s
    ensures NormalForm(NormalOctets(negative, e + shift, m), |IntegerOctets(e + shift)|, negative, s, e, shift)
  {
    hide IntegerOctets, Mantissa, TwosComplement, Shortest, IntegerSize, Pow2;
    var x, o := IntegerOctets(e + shift), NormalOctets(negative, e + shift, m);
    assert o[1..1 + |x|] == x && o[1 + |x|..] == Mantissa(m);
    IntegerRoundTrip(e + shift);
    ShortestIsCanonical(x);
    MantissaVal(m);
    LeadingMantissa(m);
  }

  lemma LeadingMantissa(m: nat)
    requires m > 0
    ensures Mantissa(m) != [] && Mantissa(m)[0] != 0
  {
    LeadingDigit(m, 256);
  }

  // ---- the parts of a structure ----

  lemma SameLength(vs: seq<Option<Value>>, fs: seq<Field>)
    requires FieldsHaveType(vs, fs)
    ensures |vs| == |fs|
  {
  }

  lemma NoFields()
    ensures FieldsHaveType([], []) && FieldsWritable([], []) && FieldsOctets([], []) == []
  {
  }

  lemma NoItems(e: Schema)
    ensures ItemsHaveType([], e) && ItemsWritable([], e) && ItemsOctets([], e) == []
  {
  }

  lemma FirstField(v: Option<Value>, vs: seq<Option<Value>>, f: Field, fs: seq<Field>)
    ensures FieldsHaveType([v] + vs, [f] + fs) <==>
      (if v.Some? then HasType(v.value, f.schema) else f.optional) && FieldsHaveType(vs, fs)
    ensures FieldsHaveType([v] + vs, [f] + fs) ==>
      (FieldsWritable([v] + vs, [f] + fs) <==>
        (v.Some? ==> Writable(v.value, f.schema)) && FieldsWritable(vs, fs))
    ensures FieldsHaveType([v] + vs, [f] + fs) && FieldsWritable([v] + vs, [f] + fs) ==>
      FieldsOctets([v] + vs, [f] + fs)
        == (if v.Some? then ValueOctets(v.value, f.schema, None) else []) + FieldsOctets(vs, fs)
  {
    assert ([v] + vs)[1..] == vs && ([f] + fs)[1..] == fs;
  }

  /** Fields are encoded one after the other. */
  lemma {:induction false} FieldsInOrder(vs: seq<Option<Value>>, fs: seq<Field>, us: seq<Option<Value>>, gs: seq<Field>)
    requires FieldsHaveType(vs, fs) && FieldsWritable(vs, fs)
    requires FieldsHaveType(us, gs) && FieldsWritable(us, gs)
    ensures FieldsHaveType(vs + us, fs + gs) && FieldsWritable(vs + us, fs + gs)
    ensures FieldsOctets(vs + us, fs + gs) == FieldsOctets(vs, fs) + FieldsOctets(us, gs)
    decreases |fs|
  {
    SameLength(vs, fs);
    hide *;
    if fs == [] {
      assert vs + us == us && fs + gs == gs && vs == [];
      NoFields();
    } else {
      var v, vr, f, fr := vs[0], vs[1..], fs[0], fs[1..];
      assert vs == [v] + vr && fs == [f] + fr;
      assert vs + us == [v] + (vr + us) && fs + gs == [f] + (fr + gs);
      FirstField(v, vr, f, fr);
      FieldsInOrder(vr, fr, us, gs);
      FirstField(v, vr + us, f, fr + gs);
      var first := if v.Some? then ValueOctets(v.value, f.schema, None) else [];
      Associative(first, FieldsOctets(vr, fr), FieldsOctets(us, gs));
    }
  }

  lemma Associative(a: seq<octet>, b: seq<octet>, c: seq<octet>)
    ensures a + (b + c) == a + b + c
  {
  }

  lemma FirstItem(v: Value, vs: seq<Value>, e: Schema)
    ensures ItemsHaveType([v] + vs, e) <==> HasType(v, e) && ItemsHaveType(vs, e)
    ensures ItemsHaveType([v] + vs, e) ==>
      (ItemsWritable([v] + vs, e) <==> Writable(v, e) && ItemsWritable(vs, e))
    ensures ItemsHaveType([v] + vs, e) && ItemsWritable([v] + vs, e) ==>
      ItemsOctets([v] + vs, e) == ValueOctets(v, e, None) + ItemsOctets(vs, e)
  {
    assert ([v] + vs)[1..] == vs;
  }

  /** And so are the elements of a container. */
  lemma {:induction false} ItemsInOrder(vs: seq<Value>, us: seq<Value>, e: Schema)
    requires ItemsHaveType(vs, e) && ItemsWritable(vs, e) && ItemsHaveType(us, e) && ItemsWritable(us, e)
    ensures ItemsHaveType(vs + us, e) && ItemsWritable(vs + us, e)
    ensures ItemsOctets(vs + us, e) == ItemsOctets(vs, e) + ItemsOctets(us, e)
    decreases |vs|
  {
    hide *;
    if vs == [] {
      assert vs + us == us;
      NoItems(e);
    } else {
      var v, vr := vs[0], vs[1..];
      assert vs == [v] + vr && vs + us == [v] + (vr + us);
      FirstItem(v, vr, e);
      ItemsInOrder(vr, us, e);
      FirstItem(v, vr + us, e);
      Associative(ValueOctets(v, e, None), ItemsOctets(vr, e), ItemsOctets(us, e));
    }
  }
}
