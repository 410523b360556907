/** What the decoder makes of octets that need not come from the encoder: exactly which
    headers it takes, how far an element reaches, and what type of value it gives. */
module AsnForeign {
  import opened Octets
  import opened AsnInteger
  import opened AsnHeader
  import opened AsnReal
  import opened AsnUtil
  import opened AsnSchema
  import opened AsnDecode
  import opened AsnWire
  import opened Options

  // ---- headers ----

  /** At most ten septets, all but the last marked; the number is cut to 64 bits. */
  predicate LongTagAt(data: seq<octet>, pos: nat, tag: nat, next: nat) {
    && pos < next <= |data| && next - pos <= 10
    && (forall k :: pos <= k < next - 1 ==> data[k] >= 0x80) && data[next - 1] < 0x80
    && tag == SeptetVal(data[pos..next]) % 0x1_0000_0000_0000_0000
  }

  lemma LongTagReadExactly(data: seq<octet>, pos: nat, tag: nat, next: nat)
    requires pos <= |data|
    ensures ReadLongTag(data, pos, 0, 0) == Got(tag, next) <==> LongTagAt(data, pos, tag, next)
  {
    assert data[pos..pos] == [];
    LongTagFrom(data, pos, pos, 0, tag, next);
  }

  lemma {:induction false} LongTagFrom(data: seq<octet>, start: nat, pos: nat, acc: nat, tag: nat, next: nat)
    requires start <= pos <= |data| && pos - start <= 9
    requires forall k :: start <= k < pos ==> data[k] >= 0x80
    requires SeptetVal(data[start..pos]) >= 0 && acc == SeptetVal(data[start..pos]) % TWO64
    ensures ReadLongTag(data, pos, acc, pos - start) == Got(tag, next) <==>
      LongTagAt(data, start, tag, next) && pos < next
    decreases |data| - pos
  {
    hide SeptetVal;
    if pos < |data| {
      SeptetStep(data, start, pos, acc);
      if data[pos] >= 0x80 && pos - start < 9 {
        LongTagFrom(data, start, pos + 1, Wrap64(acc * 128 + data[pos] % 128), tag, next);
      }
    }
  }

  lemma SeptetStep(data: seq<octet>, start: nat, pos: nat, acc: nat)
    requires start <= pos < |data|
    requires SeptetVal(data[start..pos]) >= 0 && acc == SeptetVal(data[start..pos]) % TWO64
    ensures SeptetVal(data[start..pos + 1]) >= 0
    ensures Wrap64(acc * 128 + data[pos] % 128) == SeptetVal(data[start..pos + 1]) % TWO64
  {
    var s, t := data[start..pos], data[start..pos + 1];
    var u := seq(|s|, i requires 0 <= i < |s| => s[i] % 128);
    assert seq(|t|, i requires 0 <= i < |t| => t[i] % 128) == u + [data[pos] % 128];
    ValSnoc(u, data[pos] % 128, 128);
    CutStep(SeptetVal(s), data[pos] % 128);
  }

  lemma CutStep(v: nat, d: nat)
    ensures ((v % TWO64) * 128 + d) % TWO64 == (v * 128 + d) % TWO64
  {
    var q := v / TWO64;
    assert v * 128 + d == (v % TWO64) * 128 + d + (q * 128) * TWO64;
    CutMultiple((v % TWO64) * 128 + d, q * 128);
  }

  lemma {:induction false} CutMultiple(a: nat, k: nat)
    ensures (a + k * TWO64) % TWO64 == a % TWO64
    decreases k
  {
    if k > 0 {
      CutMultiple(a, k - 1);
    }
  }

  /** Class in the top two bits, form in the next, a tag below 31 in the rest. */
  predicate TagAt(data: seq<octet>, pos: nat, h: Header, next: nat) {
    && pos < |data| && h.cls == data[pos] / 0x40 && (h.constructed <==> data[pos] / 0x20 % 2 == 1)
    && (if data[pos] % 0x20 == 0x1F then LongTagAt(data, pos + 1, h.tag, next)
        else h.tag == data[pos] % 0x20 && next == pos + 1)
  }

  lemma TagReadExactly(data: seq<octet>, pos: nat, h: Header, next: nat)
    requires pos <= |data|
    ensures ReadTag(data, pos) == Got(h, next) <==> TagAt(data, pos, h, next) && h.length == 0
  {
    if pos < |data| {
      LongTagReadExactly(data, pos + 1, h.tag, next);
    }
    hide ReadLongTag, LongTagAt;
  }

  /** One octet up to 127, or 1 to 8 octets of length; no indefinite form. */
  predicate LengthAt(data: seq<octet>, pos: nat, length: nat, next: nat) {
    && pos < next <= |data|
    && (if data[pos] < 0x80 then (length == data[pos] && next == pos + 1)
        else (0x81 <= data[pos] <= 0x88 && next == pos + 1 + data[pos] - 0x80
              && length == UnsignedVal(data[pos + 1..next])))
  }

  lemma LengthReadExactly(data: seq<octet>, pos: nat, length: nat, next: nat)
    requires pos <= |data|
    ensures ReadLength(data, pos) == Got(length, next) <==> LengthAt(data, pos, length, next)
  {
    if pos < |data| && 0x81 <= data[pos] <= 0x88 && pos + 1 + data[pos] - 0x80 <= |data| {
      var size: nat := data[pos] - 0x80;
      ValBound(data[pos + 1..pos + 1 + size], 256);
      PowMono(256, size, 8);
      assert Pow(256, 8) == TWO64;
    }
  }

  /** Tag and length, up to two mebibytes for a primitive element and 512 for a structure. */
  predicate HeaderAt(data: seq<octet>, pos: nat, h: Header, next: nat) {
    && h.length <= (if h.constructed then 536870912 else 2097152)
    && exists p :: 0 <= p <= |data| && TagAt(data, pos, h, p) && LengthAt(data, p, h.length, next)
  }

  /** The decoder reads a header exactly if the octets are one. */
  lemma HeaderReadExactly(data: seq<octet>, pos: nat, h: Header, next: nat)
    requires pos <= |data|
    ensures ReadHeader(data, pos) == Got(h, next) <==> HeaderAt(data, pos, h, next)
  {
    hide ReadTag, ReadLength, LengthAt, TagAt;
    if ReadHeader(data, pos) == Got(h, next) {
      var p := ReadTag(data, pos).next;
      TagReadExactly(data, pos, ReadTag(data, pos).value, p);
      LengthReadExactly(data, p, h.length, next);
      TagIgnoresLength(data, pos, ReadTag(data, pos).value, h, p);
    }
    if HeaderAt(data, pos, h, next) {
      var p :| 0 <= p <= |data| && TagAt(data, pos, h, p) && LengthAt(data, p, h.length, next);
      TagIgnoresLength(data, pos, h, h.(length := 0), p);
      TagReadExactly(data, pos, h.(length := 0), p);
      LengthReadExactly(data, p, h.length, next);
    }
  }

  lemma TagIgnoresLength(data: seq<octet>, pos: nat, g: Header, h: Header, next: nat)
    requires TagAt(data, pos, g, next) && h == g.(length := h.length)
    ensures TagAt(data, pos, h, next)
  {
  }

  // ---- elements ----

  /** Nothing more: at the end of the innermost sequence, or of the input outside any. */
  predicate Ended(data: seq<octet>, st: State) {
    if st.ends == [] then st.pos == |data| else st.ends[0] <= st.pos
  }

  /** Has the header the pending tag, or else the number of the kind? */
  predicate Wanted(h: Header, pending: Option<tagnum>, number: nat) {
    if pending.Some? then h.cls == 2 && h.tag == pending.value else h.cls == 0 && h.tag == number
  }

  predicate PrimitiveWanted(h: Header, pending: Option<tagnum>, p: Primitive) {
    match p
    case Boolean => Wanted(h, pending, 1)
    case Integer(_, _) => Wanted(h, pending, 2)
    case BigInteger => Wanted(h, pending, 2)
    case OctetString => Wanted(h, pending, 4)
    case RealNumber => Wanted(h, pending, 9)
    case Text => Wanted(h, pending, 20)
  }

  /** A primitive is missing exactly at the end or before another header, and read exactly
      if its content is there and good; the form bit is not looked at. */
  lemma PrimitiveReadExactly(data: seq<octet>, st: State, p: Primitive, v: Value, next: nat)
    requires st.pos <= |data|
    ensures var r := ReadHeader(data, st.pos);
      && (Decode(data, st, Prim(p)).Missing? <==>
           Ended(data, st) || (r.Got? && !PrimitiveWanted(r.value, st.pending, p)))
      && (Decode(data, st, Prim(p)) == Ok(v, State(next, st.ends, None)) <==>
           && !Ended(data, st) && r.Got? && PrimitiveWanted(r.value, st.pending, p)
           && next == r.next + r.value.length <= |data|
           && DecodeContent(p, data[r.next..next]) == Some(v))
  {
    hide ReadHeader, DecodeContent;
    PrimitiveIs(data, st, p);
    hide Decode;
    Opened(data, st, DefaultTag(p));
    hide OpenTagged, Open, Wanted, Ended;
  }

  lemma PrimitiveIs(data: seq<octet>, st: State, p: Primitive)
    requires st.pos <= |data|
    ensures Decode(data, st, Prim(p)) == DecodePrim(data, st, p)
  {
  }

  lemma Opened(data: seq<octet>, st: State, number: tagnum)
    requires st.pos <= |data|
    ensures OpenTagged(data, st, number) ==
      if Ended(data, st) then Missing(st.(pending := None)) else
        match ReadHeader(data, st.pos)
        case NoParse => Malformed
        case Got(h, at) =>
          if Wanted(h, st.pending, number) then Ok(h, State(at, st.ends, None))
          else Missing(State(at, st.ends, None))
  {
    hide ReadHeader;
  }

  /** One octet, false exactly if it is 0. */
  lemma BooleanReadExactly(s: seq<octet>, b: bool)
    ensures DecodeContent(Boolean, s) == Some(VBool(b)) <==> |s| == 1 && (b <==> s[0] != 0)
  {
    if |s| == 1 {
      ValHead(s);
      assert s[1..] == [];
      assert Pow(256, 1) == 256 && Pow(256, 0) == 1;
    }
  }

  /** A structure is entered at a constructed header of its own, with fewer than 64 open. */
  predicate Entered(data: seq<octet>, st: State, s: Schema)
    requires st.pos <= |data|
  {
    var r := ReadHeader(data, st.pos);
    && !Ended(data, st) && |st.ends| < 64 && r.Got? && r.value.constructed
    && (if s.Explicit? then r.value.cls == 2 && r.value.tag == s.tag else Wanted(r.value, st.pending, 16))
  }

  /** Its end is where its header says; an explicit tag leaves a pending one alone. */
  function Inside(data: seq<octet>, st: State, s: Schema): (inside: State)
    requires st.pos <= |data| && Entered(data, st, s)
    ensures inside.pos <= |data| && inside.ends != []
  {
    var r := ReadHeader(data, st.pos);
    State(r.next, [r.next + r.value.length] + st.ends, if s.Explicit? then st.pending else None)
  }

  /** It is left at its end, or where its content stopped if that is further. */
  predicate Left(data: seq<octet>, after: State, next: State) {
    && after.ends != [] && next.ends == after.ends[1..] && next.pending == after.pending
    && next.pos == (if after.pos < after.ends[0] then after.ends[0] else after.pos) && next.pos <= |data|
  }

  /** It cannot be left: the input ends before it does. */
  predicate CutShort(data: seq<octet>, after: State) {
    after.ends != [] && after.pos < after.ends[0] && |data| < after.ends[0]
  }

  lemma LeftExactly(data: seq<octet>, after: State, next: State)
    requires after.pos <= |data|
    ensures after.ends != [] && Pop(data, after) == Some(next) <==> Left(data, after, next)
    ensures after.ends != [] ==> (Pop(data, after) == None <==> CutShort(data, after))
  {
  }

  /** Entering is opening and pushing. */
  lemma EnteredOpens(data: seq<octet>, st: State, s: Schema)
    requires st.pos <= |data|
    ensures var r := if s.Explicit? then Open(data, st, CONTEXT, s.tag) else OpenTagged(data, st, TAG_SEQUENCE);
      && (Entered(data, st, s) <==> r.Ok? && Push(r.state, r.value).Some?)
      && (Entered(data, st, s) ==> Push(r.state, r.value).value == Inside(data, st, s))
  {
    hide ReadHeader;
  }

  lemma SequenceShut(data: seq<octet>, st: State, fields: seq<Field>)
    requires st.pos <= |data| && !Entered(data, st, Sequence(fields))
    ensures !Decode(data, st, Sequence(fields)).Ok?
  {
    hide OpenTagged, Push, Pop, Entered, Inside, DecodeFields;
    EnteredOpens(data, st, Sequence(fields));
  }

  /** What is made of the fields inside. */
  lemma SequenceOpened(data: seq<octet>, st: State, fields: seq<Field>, inner: Outcome<seq<Option<Value>>>)
    requires st.pos <= |data| && Entered(data, st, Sequence(fields))
    requires inner == DecodeFields(data, Inside(data, st, Sequence(fields)), fields)
    ensures var r := Decode(data, st, Sequence(fields));
      && (inner.Ok? || inner.Missing? ==> inner.state.ends != [])
      && (inner.Ok? ==>
           var q := Pop(data, inner.state); r == if q.Some? then Ok(VStruct(inner.value), q.value) else Malformed)
      && (inner.Missing? ==>
           var q := Pop(data, inner.state); r == if q.Some? then Missing(q.value) else Lost)
      && (inner.Lost? ==> r == Lost) && (inner.Malformed? ==> r == Malformed)
  {
    hide OpenTagged, Push, Pop, Entered, Inside, DecodeFields;
    EnteredOpens(data, st, Sequence(fields));
  }

  lemma SequenceReadExactly(data: seq<octet>, st: State, fields: seq<Field>, vs: seq<Option<Value>>, next: State)
    requires st.pos <= |data|
    ensures Decode(data, st, Sequence(fields)) == Ok(VStruct(vs), next) <==>
      Entered(data, st, Sequence(fields))
      && var inner := DecodeFields(data, Inside(data, st, Sequence(fields)), fields);
         inner.Ok? && inner.value == vs && Left(data, inner.state, next)
  {
    hide Decode, DecodeFields, Pop, Entered, Inside, Left, CutShort;
    if Entered(data, st, Sequence(fields)) {
      var inner := DecodeFields(data, Inside(data, st, Sequence(fields)), fields);
      SequenceOpened(data, st, fields, inner);
      if inner.Ok? {
        LeftExactly(data, inner.state, next);
      }
    } else {
      SequenceShut(data, st, fields);
    }
  }

  /** A field missing inside makes the whole sequence missing, if it can be left. */
  lemma SequenceMissingExactly(data: seq<octet>, st: State, fields: seq<Field>, next: State)
    requires st.pos <= |data| && Entered(data, st, Sequence(fields))
    ensures var r := Decode(data, st, Sequence(fields));
      var inner := DecodeFields(data, Inside(data, st, Sequence(fields)), fields);
      && (r == Missing(next) <==> inner.Missing? && Left(data, inner.state, next))
      && (r.Lost? <==> inner.Lost? || (inner.Missing? && CutShort(data, inner.state)))
  {
    hide Decode, DecodeFields, Pop, Entered, Inside, Left, CutShort;
    var inner := DecodeFields(data, Inside(data, st, Sequence(fields)), fields);
    SequenceOpened(data, st, fields, inner);
    if inner.Missing? {
      LeftExactly(data, inner.state, next);
    }
  }

  lemma ContainerShut(data: seq<octet>, st: State, e: Schema)
    requires st.pos <= |data| && !Entered(data, st, Container(e))
    ensures !Decode(data, st, Container(e)).Ok?
  {
    hide OpenTagged, Push, Pop, Entered, Inside, DecodeItems;
    EnteredOpens(data, st, Container(e));
  }

  lemma ContainerOpened(data: seq<octet>, st: State, e: Schema, inner: Outcome<seq<Value>>)
    requires st.pos <= |data| && Entered(data, st, Container(e))
    requires inner == DecodeItems(data, Inside(data, st, Container(e)), e)
    ensures var r := Decode(data, st, Container(e));
      && (inner.Ok? || inner.Missing? ==> inner.state.ends != [])
      && (inner.Ok? ==>
           var q := Pop(data, inner.state); r == if q.Some? then Ok(VList(inner.value), q.value) else Malformed)
      && (inner.Missing? ==>
           var q := Pop(data, inner.state); r == if q.Some? then Missing(q.value) else Lost)
      && (inner.Lost? ==> r == Lost) && (inner.Malformed? ==> r == Malformed)
  {
    hide OpenTagged, Push, Pop, Entered, Inside, DecodeItems;
    EnteredOpens(data, st, Container(e));
  }

  lemma ContainerReadExactly(data: seq<octet>, st: State, e: Schema, vs: seq<Value>, next: State)
    requires st.pos <= |data|
    ensures Decode(data, st, Container(e)) == Ok(VList(vs), next) <==>
      Entered(data, st, Container(e))
      && var inner := DecodeItems(data, Inside(data, st, Container(e)), e);
         inner.Ok? && inner.value == vs && Left(data, inner.state, next)
  {
    hide Decode, DecodeItems, Pop, Entered, Inside, Left, CutShort;
    if Entered(data, st, Container(e)) {
      var inner := DecodeItems(data, Inside(data, st, Container(e)), e);
      ContainerOpened(data, st, e, inner);
      if inner.Ok? {
        LeftExactly(data, inner.state, next);
      }
    } else {
      ContainerShut(data, st, e);
    }
  }

  lemma ContainerMissingExactly(data: seq<octet>, st: State, e: Schema, next: State)
    requires st.pos <= |data| && Entered(data, st, Container(e))
    ensures var r := Decode(data, st, Container(e));
      var inner := DecodeItems(data, Inside(data, st, Container(e)), e);
      && (r == Missing(next) <==> inner.Missing? && Left(data, inner.state, next))
      && (r.Lost? <==> inner.Lost? || (inner.Missing? && CutShort(data, inner.state)))
  {
    hide Decode, DecodeItems, Pop, Entered, Inside, Left, CutShort;
    var inner := DecodeItems(data, Inside(data, st, Container(e)), e);
    ContainerOpened(data, st, e, inner);
    if inner.Missing? {
      LeftExactly(data, inner.state, next);
    }
  }

  lemma ExplicitReadExactly(data: seq<octet>, st: State, t: tagnum, s: Schema, v: Value, next: State)
    requires st.pos <= |data|
    ensures Decode(data, st, Explicit(t, s)) == Ok(v, next) <==>
      Entered(data, st, Explicit(t, s))
      && var inner := Decode(data, Inside(data, st, Explicit(t, s)), s);
         inner.Ok? && inner.value == v && Left(data, inner.state, next)
    ensures Entered(data, st, Explicit(t, s)) ==>
      var (r, inner) := (Decode(data, st, Explicit(t, s)), Decode(data, Inside(data, st, Explicit(t, s)), s));
      (r == Missing(next) <==> inner == Missing(next)) && (r.Lost? <==> inner.Lost?)
  {
    hide Open, Push, Pop, Entered, Inside, Left, DecodeFields, DecodeItems, DecodePrim;
    EnteredOpens(data, st, Explicit(t, s));
    if Entered(data, st, Explicit(t, s)) {
      var inner := Decode(data, Inside(data, st, Explicit(t, s)), s);
      if inner.Ok? {
        LeftExactly(data, inner.state, next);
      }
    }
  }

  /** A field is present if its element can be read, and absent if it is optional and the
      element missing, which then leaves the position where it was; nothing else will do. */
  lemma FieldsReadExactly(data: seq<octet>, st: State, fs: seq<Field>, vs: seq<Option<Value>>, next: State)
    requires st.pos <= |data| && fs != [] && vs != []
    ensures var r := Decode(data, st, fs[0].schema);
      DecodeFields(data, st, fs) == Ok(vs, next) <==>
        if r.Ok? then vs[0] == Some(r.value) && DecodeFields(data, r.state, fs[1..]) == Ok(vs[1..], next)
        else
          && r.Missing? && fs[0].optional && vs[0] == None
          && DecodeFields(data, r.state.(pos := st.pos), fs[1..]) == Ok(vs[1..], next)
    ensures var r := Decode(data, st, fs[0].schema);
      r.Malformed? || (fs[0].optional && r.Lost?) ==> DecodeFields(data, st, fs) == Malformed
  {
    hide Decode;
    assert vs == [vs[0]] + vs[1..];
  }

  /** Elements are read until the end of the container. */
  lemma ItemsReadExactly(data: seq<octet>, st: State, e: Schema, vs: seq<Value>, next: State)
    requires st.pos <= |data|
    ensures DecodeItems(data, st, e) == Ok(vs, next) <==>
      if st.ends != [] && st.ends[0] <= st.pos then vs == [] && next == st
      else
        var r := Decode(data, st, e);
        r.Ok? && r.state.pos > st.pos && vs != [] && vs[0] == r.value
        && DecodeItems(data, r.state, e) == Ok(vs[1..], next)
  {
    hide Decode;
    assert vs != [] ==> vs == [vs[0]] + vs[1..];
  }

  // ---- reals ----

  /** The double s * 2^x is m * 2^e. */
  predicate SameReal(m: nat, e: int, s: nat, x: int) {
    if x <= e then m * Pow2(e - x) == s else m == s * Pow2(x - e)
  }

  /** A mantissa and an exponent give a normal double exactly if they denote it. */
  lemma {:induction false} ScaleExactly(negative: bool, m: nat, e: int, s: nat, x: int)
    requires TWO53 <= 2 * s < 2 * TWO53 && -1074 <= x <= 971
    ensures Scale(negative, m, e) == Some(Normal(negative, s, x)) <==> SameReal(m, e, s, x)
    decreases if m >= TWO53 then m else TWO53 - m
  {
    if m == 0 {
      assert x > e ==> s * Pow2(x - e) >= 1;
    } else if m >= TWO53 {
      SameHalved(m, e, s, x);
      if m % 2 == 0 {
        ScaleExactly(negative, m / 2, e + 1, s, x);
      }
    } else if 2 * m >= TWO53 {
      SameIsEqual(m, e, s, x);
    } else {
      SameDoubled(m, e, s, x);
      ScaleExactly(negative, 2 * m, e - 1, s, x);
    }
  }

  lemma SameIsEqual(m: nat, e: int, s: nat, x: int)
    requires TWO53 <= 2 * s < 2 * TWO53 && TWO53 <= 2 * m < 2 * TWO53
    ensures SameReal(m, e, s, x) <==> m == s && e == x
  {
    if x < e {
      DoublePow(e - x);
      MoveTwo(m, Pow2(e - x - 1));
    } else if x > e {
      DoublePow(x - e);
      MoveTwo(s, Pow2(x - e - 1));
    }
  }

  lemma SameDoubled(m: nat, e: int, s: nat, x: int)
    requires TWO53 <= 2 * s && 2 * m < TWO53
    ensures SameReal(m, e, s, x) <==> SameReal(2 * m, e - 1, s, x)
  {
    if x < e {
      DoublePow(e - x);
      MoveTwo(m, Pow2(e - x - 1));
    } else {
      DoublePow(x - e + 1);
      MoveTwo(s, Pow2(x - e));
    }
  }

  lemma SameHalved(m: nat, e: int, s: nat, x: int)
    requires s < TWO53 <= m
    ensures SameReal(m, e, s, x) <==> m % 2 == 0 && SameReal(m / 2, e + 1, s, x)
  {
    assert Pow2(0) == 1;
    if x <= e {
      DoublePow(e - x + 1);
      hide Pow2;
      MulAtLeast(m, Pow2(e - x));
      if m % 2 == 0 {
        MoveTwo(m / 2, Pow2(e - x));
      }
    } else {
      DoublePow(x - e);
      hide Pow2;
      MoveTwo(s, Pow2(x - e - 1));
      assert s * Pow2(x - e) == 2 * (s * Pow2(x - e - 1));
    }
  }

  /** How long the exponent is and where it begins: from the two low bits of the first
      octet, or, if they are set, from the second. */
  predicate ExponentAt(o: seq<octet>, at: nat, size: nat) {
    |o| >= 2 && if o[0] % 4 == 3 then at == 2 && size == o[1] else at == 1 && size == o[0] % 4 + 1
  }

  /** Content octets of a real are refused exactly if one octet is not one of the four
      special values, or more are not a binary real in base 2 without scaling, or end
      before the mantissa. */
  lemma RealRefusedExactly(o: seq<octet>)
    ensures DecodeReal(o) == Refused <==>
      || (|o| == 1 && !(0x40 <= o[0] <= 0x43))
      || (|o| > 1 && (o[0] < 0x80 || o[0] / 0x10 % 4 != 0 || o[0] / 4 % 4 != 0
                      || forall at: nat, size: nat :: ExponentAt(o, at, size) ==> |o| <= at + size))
  {
    if |o| > 1 {
      assert ExponentAt(o, if o[0] % 4 == 3 then 2 else 1, if o[0] % 4 == 3 then o[1] else o[0] % 4 + 1);
    }
  }

  /** With an exponent of up to four octets, the double read is the one the octets denote. */
  lemma RealReadExactly(o: seq<octet>, at: nat, size: nat, s: nat, x: int)
    requires ExponentAt(o, at, size) && 1 <= size <= 4 && at + size < |o| && DecodeReal(o) != Refused
    requires TWO53 <= 2 * s < 2 * TWO53 && -1074 <= x <= 971
    ensures var negative := o[0] / 0x40 % 2 == 1;
      DecodeReal(o) == Exact(Normal(negative, s, x)) <==>
        SameReal(UnsignedVal(o[at + size..]), TwosComplement(o[at..at + size]), s, x)
  {
    ReadFits(o[at..], size, 4, 4);
    assert o[at..][..size] == o[at..at + size];
    ScaleExactly(o[0] / 0x40 % 2 == 1, UnsignedVal(o[at + size..]), TwosComplement(o[at..at + size]), s, x);
    hide Scale, SameReal, TwosComplement, UnsignedVal, IntegerRead;
  }
}
