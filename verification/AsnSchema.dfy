/** Typed values and their encoding as nested tag-length-content, the meaning the
    serialiser and the layered encoder are proved against. A schema stands for the C++
    type whose serialise function drives both directions. */
module AsnSchema {
  import opened Octets
  import opened AsnInteger
  import opened AsnHeader
  import opened AsnReal
  import opened Options

  type tagnum = x: int | 0 <= x < TWO64

  datatype Primitive =
    | Boolean
    | Integer(isSigned: bool, width: nat)
    | BigInteger
    | RealNumber
    | Text
    | OctetString

  /** Implicit and Explicit are the wrappers of tag.hpp; both use the context class. */
  datatype Schema =
    | Prim(p: Primitive)
    | Sequence(fields: seq<Field>)
    | Container(element: Schema)
    | Implicit(tag: tagnum, inner: Schema)
    | Explicit(tag: tagnum, inner: Schema)

  /** A field of a sequence; an optional one may be absent. */
  datatype Field = Field(optional: bool, schema: Schema)

  datatype Value =
    | VBool(b: bool)
    | VInt(i: int)
    | VReal(r: Real)
    | VOctets(o: seq<octet>)
    | VStruct(fields: seq<Option<Value>>)
    | VList(items: seq<Value>)

  predicate PrimitiveType(v: Value, p: Primitive) {
    match p
    case Boolean => v.VBool?
    case Integer(isSigned, w) => v.VInt? && 1 <= w <= 8 && InType(v.i, isSigned, w)
    case RealNumber => v.VReal? && IsDouble(v.r) && !v.r.Other?
    case BigInteger => v.VOctets?
    case Text => v.VOctets?
    case OctetString => v.VOctets?
  }

  predicate HasType(v: Value, s: Schema)
    decreases s, 1, 0
  {
    match s
    case Prim(p) => PrimitiveType(v, p)
    case Sequence(fields) => v.VStruct? && FieldsHaveType(v.fields, fields)
    case Container(e) => v.VList? && ItemsHaveType(v.items, e)
    case Implicit(_, inner) => HasType(v, inner)
    case Explicit(_, inner) => HasType(v, inner)
  }

  predicate FieldsHaveType(vs: seq<Option<Value>>, fs: seq<Field>)
    decreases fs, 0, 0
  {
    |vs| == |fs| && (fs != [] ==>
      assert fs[0].schema < fs[0];
      (if vs[0].Some? then HasType(vs[0].value, fs[0].schema) else fs[0].optional)
      && FieldsHaveType(vs[1..], fs[1..]))
  }

  predicate ItemsHaveType(vs: seq<Value>, e: Schema)
    decreases e, 2, |vs|
  {
    vs != [] ==> HasType(vs[0], e) && ItemsHaveType(vs[1..], e)
  }

  // ---- what the encoder refuses ----

  /** Strings above the primitive limit and subnormal reals throw. */
  predicate PrimitiveEncodable(v: Value, p: Primitive)
    requires PrimitiveType(v, p)
  {
    match p
    case RealNumber => Encodable(v.r)
    case Text => |v.o| <= MAX_PRIMITIVE
    case OctetString => |v.o| <= MAX_PRIMITIVE
    case _ => true
  }

  predicate Writable(v: Value, s: Schema)
    requires HasType(v, s)
    decreases s, 1, 0
  {
    match s
    case Prim(p) => PrimitiveEncodable(v, p)
    case Sequence(fields) => FieldsWritable(v.fields, fields)
    case Container(e) => ItemsWritable(v.items, e)
    case Implicit(_, inner) => Writable(v, inner)
    case Explicit(_, inner) => Writable(v, inner)
  }

  predicate FieldsWritable(vs: seq<Option<Value>>, fs: seq<Field>)
    requires FieldsHaveType(vs, fs)
    decreases fs, 0, 0
  {
    fs != [] ==>
      assert fs[0].schema < fs[0];
      (vs[0].Some? ==> Writable(vs[0].value, fs[0].schema)) && FieldsWritable(vs[1..], fs[1..])
  }

  predicate ItemsWritable(vs: seq<Value>, e: Schema)
    requires ItemsHaveType(vs, e)
    decreases e, 2, |vs|
  {
    vs != [] ==> Writable(vs[0], e) && ItemsWritable(vs[1..], e)
  }

  // ---- encoding ----

  function DefaultTag(p: Primitive): tagnum {
    match p
    case Boolean => TAG_BOOLEAN
    case Integer(_, _) => TAG_INTEGER
    case BigInteger => TAG_INTEGER
    case RealNumber => TAG_REAL
    case Text => TAG_STRING
    case OctetString => TAG_OCTETS
  }

  /** get_asn_class and get_tag: a pending implicit tag replaces class and tag. */
  function TagHeader(pending: Option<tagnum>, default: tagnum, length: nat, constructed: bool): (h: Header)
    ensures Representable(h)
  {
    match pending
    case Some(t) => Header(CONTEXT, t, Wrap64(length), constructed)
    case None => Header(UNIVERSAL, default, Wrap64(length), constructed)
  }

  function Content(v: Value, p: Primitive): seq<octet>
    requires PrimitiveType(v, p) && PrimitiveEncodable(v, p)
  {
    match p
    case Boolean => IntegerOctets(if v.b then 1 else 0)
    case Integer(_, _) => IntegerOctets(v.i)
    case RealNumber => RealOctets(v.r)
    case BigInteger => v.o
    case Text => v.o
    case OctetString => v.o
  }

  /** The header an encoding starts with. */
  function Head(v: Value, s: Schema, pending: Option<tagnum>): (h: Header)
    requires HasType(v, s) && Writable(v, s)
    ensures Representable(h)
    decreases s, 1, 0
  {
    match s
    case Implicit(t, inner) => Head(v, inner, Some(t))
    case Prim(p) => TagHeader(pending, DefaultTag(p), |Content(v, p)|, false)
    case Sequence(fields) => TagHeader(pending, TAG_SEQUENCE, |Body(v, s, pending)|, true)
    case Container(_) => TagHeader(pending, TAG_SEQUENCE, |Body(v, s, pending)|, true)
    case Explicit(t, _) => TagHeader(Some(t), TAG_SEQUENCE, |Body(v, s, pending)|, true)
  }

  /** What follows the header. */
  function Body(v: Value, s: Schema, pending: Option<tagnum>): seq<octet>
    requires HasType(v, s) && Writable(v, s)
    decreases s, 0, 0
  {
    match s
    case Implicit(t, inner) => Body(v, inner, Some(t))
    case Prim(p) => Content(v, p)
    case Sequence(fields) => FieldsOctets(v.fields, fields)
    case Container(e) => ItemsOctets(v.items, e)
    case Explicit(_, inner) => ValueOctets(v, inner, pending)
  }

  /** The encoding of a value: header, then content, recursively. */
  function ValueOctets(v: Value, s: Schema, pending: Option<tagnum>): (r: seq<octet>)
    requires HasType(v, s) && Writable(v, s)
    ensures r != []
    decreases s, 2, 0
  {
    HeaderOctets(Head(v, s, pending)) + Body(v, s, pending)
  }

  function FieldsOctets(vs: seq<Option<Value>>, fs: seq<Field>): seq<octet>
    requires FieldsHaveType(vs, fs) && FieldsWritable(vs, fs)
    decreases fs, 0, 0
  {
    if fs == [] then [] else
      assert fs[0].schema < fs[0];
      (if vs[0].Some? then ValueOctets(vs[0].value, fs[0].schema, None) else []) + FieldsOctets(vs[1..], fs[1..])
  }

  function ItemsOctets(vs: seq<Value>, e: Schema): seq<octet>
    requires ItemsHaveType(vs, e) && ItemsWritable(vs, e)
    decreases e, 3, |vs|
  {
    if vs == [] then [] else ValueOctets(vs[0], e, None) + ItemsOctets(vs[1..], e)
  }

  // ---- when the encoding can be read back ----

  /** Sizes within the decoder's limits and at most 64 open structures, `depth` of them
      already open. The encoder checks neither the depth nor constructed sizes. */
  predicate Fits(v: Value, s: Schema, pending: Option<tagnum>, depth: nat)
    requires HasType(v, s) && Writable(v, s)
    decreases s, 1, 0
  {
    match s
    case Implicit(t, inner) => Fits(v, inner, Some(t), depth)
    case Prim(p) => |Content(v, p)| <= MAX_PRIMITIVE && (p == BigInteger ==> v.o != [])
    case Sequence(fields) =>
      |Body(v, s, pending)| <= MAX_CONSTRUCTED && depth < MAX_DEPTH && FieldsFit(v.fields, fields, depth + 1)
    case Container(e) =>
      |Body(v, s, pending)| <= MAX_CONSTRUCTED && depth < MAX_DEPTH && ItemsFit(v.items, e, depth + 1)
    case Explicit(_, inner) =>
      |Body(v, s, pending)| <= MAX_CONSTRUCTED && depth < MAX_DEPTH && Fits(v, inner, pending, depth + 1)
  }

  predicate FieldsFit(vs: seq<Option<Value>>, fs: seq<Field>, depth: nat)
    requires FieldsHaveType(vs, fs) && FieldsWritable(vs, fs)
    decreases fs, 0, 0
  {
    fs != [] ==>
      assert fs[0].schema < fs[0];
      (vs[0].Some? ==> Fits(vs[0].value, fs[0].schema, None, depth)) && FieldsFit(vs[1..], fs[1..], depth)
  }

  predicate ItemsFit(vs: seq<Value>, e: Schema, depth: nat)
    requires ItemsHaveType(vs, e) && ItemsWritable(vs, e)
    decreases e, 2, |vs|
  {
    vs != [] ==> Fits(vs[0], e, None, depth) && ItemsFit(vs[1..], e, depth)
  }

  // ---- which values the decoder can tell apart ----

  function HeadTag(s: Schema, pending: Option<tagnum>): (nat, tagnum) {
    match s
    case Implicit(t, inner) => HeadTag(inner, Some(t))
    case Explicit(t, _) => (CONTEXT, t)
    case Prim(p) => if pending.Some? then (CONTEXT, pending.value) else (UNIVERSAL, DefaultTag(p))
    case _ => if pending.Some? then (CONTEXT, pending.value) else (UNIVERSAL, TAG_SEQUENCE)
  }

  /** The tag that comes first in the encoding of a field list: that of its first present
      field. */
  function NextTag(vs: seq<Option<Value>>, fs: seq<Field>): Option<(nat, tagnum)>
    requires |vs| == |fs|
  {
    if fs == [] then None
    else if vs[0].Some? then Some(HeadTag(fs[0].schema, None))
    else NextTag(vs[1..], fs[1..])
  }

  /** The first header the schema reads uses up a pending implicit tag. */
  predicate UsesTag(s: Schema) {
    match s
    case Implicit(_, inner) => UsesTag(inner)
    case Explicit(_, _) => false
    case _ => true
  }

  /** Every absent optional field differs in tag from what comes next in its place, and an
      implicit tag put on it is not left over. */
  predicate Told(v: Value, s: Schema)
    requires HasType(v, s)
    decreases s, 1, 0
  {
    match s
    case Prim(_) => true
    case Sequence(fields) => FieldsTold(v.fields, fields)
    case Container(e) => ItemsTold(v.items, e)
    case Implicit(_, inner) => Told(v, inner)
    case Explicit(_, inner) => Told(v, inner)
  }

  /** An absent field tells itself from the fields after it. */
  predicate AbsenceTold(s: Schema, vs: seq<Option<Value>>, fs: seq<Field>)
    requires |vs| == |fs|
  {
    (s.Implicit? ==> UsesTag(s)) && NextTag(vs, fs) != Some(HeadTag(s, None))
  }

  predicate FieldsTold(vs: seq<Option<Value>>, fs: seq<Field>)
    requires FieldsHaveType(vs, fs)
    decreases fs, 0, 0
  {
    fs != [] ==>
      assert fs[0].schema < fs[0];
      (if vs[0].Some? then Told(vs[0].value, fs[0].schema) else AbsenceTold(fs[0].schema, vs[1..], fs[1..]))
      && FieldsTold(vs[1..], fs[1..])
  }

  predicate ItemsTold(vs: seq<Value>, e: Schema)
    requires ItemsHaveType(vs, e)
    decreases e, 2, |vs|
  {
    vs != [] ==> Told(vs[0], e) && ItemsTold(vs[1..], e)
  }

  /** A schema that, once its tag is met, takes the element: a primitive, or anything
      explicitly tagged, under implicit tags that are used up. */
  predicate Firm(s: Schema) {
    match s
    case Prim(_) => true
    case Explicit(_, _) => true
    case Implicit(_, inner) => UsesTag(inner) && Firm(inner)
    case _ => false
  }

  /** All optional fields, at every depth, are firm. */
  predicate FirmOptionals(s: Schema)
    decreases s, 1
  {
    match s
    case Prim(_) => true
    case Sequence(fields) => FieldsFirm(fields)
    case Container(e) => FirmOptionals(e)
    case Implicit(_, inner) => FirmOptionals(inner)
    case Explicit(_, inner) => FirmOptionals(inner)
  }

  predicate FieldsFirm(fs: seq<Field>)
    decreases fs, 0
  {
    fs != [] ==>
      assert fs[0].schema < fs[0];
      FirmOptionals(fs[0].schema) && (fs[0].optional ==> Firm(fs[0].schema)) && FieldsFirm(fs[1..])
  }

  // ---- schemas that are told apart whatever the value ----

  /** Tags that can come first in the encoding of a field list. */
  function FirstTags(fs: seq<Field>): set<(nat, tagnum)> {
    if fs == [] then {}
    else {HeadTag(fs[0].schema, None)} + (if fs[0].optional then FirstTags(fs[1..]) else {})
  }

  /** Every optional field differs in tag from whatever may come next. */
  predicate Distinguishable(s: Schema)
    decreases s, 1
  {
    match s
    case Prim(_) => true
    case Sequence(fields) => FieldsDistinguishable(fields)
    case Container(e) => Distinguishable(e)
    case Implicit(_, inner) => Distinguishable(inner)
    case Explicit(_, inner) => Distinguishable(inner)
  }

  predicate FieldsDistinguishable(fs: seq<Field>)
    decreases fs, 0
  {
    fs != [] ==>
      assert fs[0].schema < fs[0];
      && Distinguishable(fs[0].schema)
      && (fs[0].optional ==> (fs[0].schema.Implicit? ==> UsesTag(fs[0].schema))
                             && HeadTag(fs[0].schema, None) !in FirstTags(fs[1..]))
      && FieldsDistinguishable(fs[1..])
  }

  /** On such a schema every value is told. */
  lemma {:induction false} DistinguishableTold(v: Value, s: Schema)
    requires HasType(v, s) && Distinguishable(s)
    ensures Told(v, s)
    decreases s, 1, 0
  {
    match s
    case Prim(_) =>
    case Sequence(fields) => DistinguishableFields(v.fields, fields);
    case Container(e) => DistinguishableItems(v.items, e);
    case Implicit(_, inner) => DistinguishableTold(v, inner);
    case Explicit(_, inner) => DistinguishableTold(v, inner);
  }

  lemma {:induction false} DistinguishableFields(vs: seq<Option<Value>>, fs: seq<Field>)
    requires FieldsHaveType(vs, fs) && FieldsDistinguishable(fs)
    ensures FieldsTold(vs, fs)
    ensures NextTag(vs, fs).Some? ==> NextTag(vs, fs).value in FirstTags(fs)
    decreases fs, 0, 0
  {
    if fs != [] {
      assert fs[0].schema < fs[0];
      DistinguishableFields(vs[1..], fs[1..]);
      if vs[0].Some? {
        DistinguishableTold(vs[0].value, fs[0].schema);
      }
    }
  }

  lemma {:induction false} DistinguishableItems(vs: seq<Value>, e: Schema)
    requires ItemsHaveType(vs, e) && Distinguishable(e)
    ensures ItemsTold(vs, e)
    decreases e, 2, |vs|
  {
    if vs != [] {
      DistinguishableTold(vs[0], e);
      DistinguishableItems(vs[1..], e);
    }
  }

  const MAX_DEPTH: nat := 64
}
