/** asn_der_decoder as an object over a buffered stream, and the deserialiser that drives
    it (securepath/serialisation/deserialiser.hpp and container.hpp). Every method is
    proved to do what the functions of AsnDecode say. */
module AsnDeserialiser {
  import opened Octets
  import opened AsnUtil
  import opened AsnHeader
  import opened AsnRealLoops
  import opened AsnSchema
  import opened AsnDecode
  import opened OctetStream
  import opened Options

  /** An Outcome whose state is in the objects. */
  datatype Result<+T> = Done(value: T) | NotPresent | LostInput | Failed

  predicate Agrees<T(==)>(r: Result<T>, o: Outcome<T>, st: State) {
    match r
    case Done(v) => o == Ok(v, st)
    case NotPresent => o == Missing(st)
    case LostInput => o == Lost
    case Failed => o == Malformed
  }

  class Decoder {
    const s: BufferedStream
    var seqPos: seq<nat>

    ghost function Data(): seq<octet> {
      s.stream.data
    }

    ghost predicate Valid()
      reads this, s, s.stream
    {
      s.Valid() && s.Nested()
    }

    ghost function View(pending: Option<tagnum>): (st: State)
      requires Valid()
      reads this, s, s.stream
      ensures st.pos <= |Data()|
    {
      State(s.Pos(), seqPos, pending)
    }

    /** The stream is usable, stands at pos, and open peeks are as they were. */
    twostate predicate MovedTo(pos: nat)
      reads this, s, s.stream
    {
      Valid() && s.Pos() == pos && s.Peeks() == old(s.Peeks())
    }

    /** A stream that still has octets is in order, whatever was refused. */
    twostate predicate Usable()
      reads this, s, s.stream
    {
      s.stream.readPos < |Data()| ==> Valid() && s.Peeks() == old(s.Peeks())
    }

    constructor (s: BufferedStream)
      requires s.Valid() && s.Nested()
      ensures Valid() && this.s == s && seqPos == []
    {
      this.s := s;
      seqPos := [];
    }

    method Read(n: nat) returns (ok: bool, bytes: seq<octet>)
      requires Valid()
      modifies s, s.stream
      ensures s.Anchored() && (!ok ==> s.stream.readPos == |Data()|)
      ensures ok <==> old(s.Pos()) + n <= |Data()|
      ensures ok ==> MovedTo(old(s.Pos()) + n) && bytes == Data()[old(s.Pos())..old(s.Pos()) + n]
    {
      ok, bytes := s.Read(n);
    }

    /** read of one octet. */
    method ReadOctet() returns (ok: bool, b: octet)
      requires Valid()
      modifies s, s.stream
      ensures s.Anchored() && (!ok ==> s.stream.readPos == |Data()|)
      ensures ok <==> old(s.Pos()) < |Data()|
      ensures ok ==> MovedTo(old(s.Pos()) + 1) && b == Data()[old(s.Pos())]
    {
      var bytes;
      ok, bytes := Read(1);
      b := if ok then bytes[0] else 0;
    }

    /** end_peek on a stream in order. */
    method EndPeek(token: nat, commit: bool)
      requires Valid() && s.marks != [] && s.Peeks().1 == token
      modifies s
      ensures Valid() && s.realPos == old(s.realPos)
      ensures s.View() == old(s.View()).Release(commit)
    {
      s.EndPeek(token, commit);
    }

    method DecodeLongTag() returns (r: Parse<nat>)
      requires Valid()
      modifies s, s.stream
      ensures s.Anchored() && (r.NoParse? ==> Usable())
      ensures r == ReadLongTag(Data(), old(s.Pos()), 0, 0)
      ensures r.Got? ==> MovedTo(r.next)
    {
      hide BufferedStream.Valid, BufferedStream.Nested;
      var ret, i: nat := 0, 0;
      var ok, b := ReadOctet();
      if !ok {
        return NoParse;
      }
      ghost var at := old(s.Pos());
      while b >= 128
        invariant at < |Data()| && b == Data()[at] && MovedTo(at + 1) && s.Anchored()
        invariant ReadLongTag(Data(), at, ret, i) == ReadLongTag(Data(), old(s.Pos()), 0, 0)
        decreases |Data()| - at
      {
        if i + 1 == 64 / 7 + 1 {
          return NoParse;
        }
        ret := Wrap64(ret * 128 + b % 128);
        i := i + 1;
        ok, b := ReadOctet();
        if !ok {
          return NoParse;
        }
        at := at + 1;
      }
      r := Got(Wrap64(ret * 128 + b), s.Pos());
    }

    method DecodeTag() returns (r: Parse<Header>)
      requires Valid()
      modifies s, s.stream
      ensures s.Anchored() && (r.NoParse? ==> Usable())
      ensures r == ReadTag(Data(), old(s.Pos()))
      ensures r.Got? ==> MovedTo(r.next)
    {
      var ok, b := ReadOctet();
      if !ok {
        return NoParse;
      }
      var constructed, cls := b / 32 % 2 == 1, b / 64;
      if b % 32 == 31 {
        var t := DecodeLongTag();
        match t
        case Got(tag, next) => r := Got(Header(cls, tag, 0, constructed), next);
        case NoParse => r := NoParse;
      } else {
        r := Got(Header(cls, b % 32, 0, constructed), s.Pos());
      }
    }

    method DecodeLongLength(b: octet) returns (r: Parse<nat>)
      requires Valid() && b >= 128
      modifies s, s.stream
      ensures s.Anchored() && (r.NoParse? ==> Usable())
      ensures r == ReadLongLength(Data(), old(s.Pos()), b - 128)
      ensures r.Got? ==> MovedTo(r.next)
    {
      var size := b - 128;
      if size > 8 || size == 0 {
        return NoParse;
      }
      var ok, buf := Read(size);
      if !ok {
        return NoParse;
      }
      var length := DecodeFromOctets(buf);
      r := Got(length, s.Pos());
    }

    method DecodeLength() returns (r: Parse<nat>)
      requires Valid()
      modifies s, s.stream
      ensures s.Anchored() && (r.NoParse? ==> Usable())
      ensures r == ReadLength(Data(), old(s.Pos()))
      ensures r.Got? ==> MovedTo(r.next)
    {
      var ok, b := ReadOctet();
      if !ok {
        return NoParse;
      }
      if b >= 128 {
        r := DecodeLongLength(b);
      } else {
        r := Got(b, s.Pos());
      }
    }

    method DecodeHeader() returns (r: Parse<Header>)
      requires Valid()
      modifies s, s.stream
      ensures s.Anchored() && (r.NoParse? ==> Usable())
      ensures r == ReadHeader(Data(), old(s.Pos()))
      ensures r.Got? ==> MovedTo(r.next)
    {
      var t := DecodeTag();
      if t.NoParse? {
        return NoParse;
      }
      var l := DecodeLength();
      if l.NoParse? {
        return NoParse;
      }
      var h := t.value.(length := l.value);
      r := if h.length > Limit(h) then NoParse else Got(h, s.Pos());
    }

    predicate IsEndOfSequence()
      reads this, s
    {
      if seqPos == [] then false else seqPos[0] <= s.Pos()
    }

    /** decode_header for an expected class and tag. */
    method OpenElement(cls: nat, tag: nat, ghost pending: Option<tagnum>) returns (r: Result<Header>)
      requires Valid()
      modifies s, s.stream
      ensures r.Done? || r.NotPresent? ==> MovedTo(s.Pos()) && Agrees(r, Open(Data(), old(View(pending)), cls, tag), View(pending))
      ensures !r.Done? && !r.NotPresent? ==> r == Failed && Open(Data(), old(View(pending)), cls, tag) == Malformed
    {
      if IsEndOfSequence() {
        return NotPresent;
      }
      if seqPos == [] {
        var more := s.ReadableBytes(1);
        if !more {
          return NotPresent;
        }
      }
      var h := DecodeHeader();
      match h
      case NoParse => r := Failed;
      case Got(header, _) =>
        r := if header.cls != cls || header.tag != tag then NotPresent else Done(header);
    }
  
    method PushEnd(h: Header, ghost pending: Option<tagnum>) returns (ok: bool)
      requires Valid()
      modifies this
      ensures Valid() && s.Pos() == old(s.Pos())
      ensures var p := AsnDecode.Push(old(View(pending)), h);
        (ok <==> p.Some?) && (ok ==> View(pending) == p.value)
    {
      ok := h.constructed && |seqPos| < MAX_DEPTH;
      if ok {
        seqPos := [s.Pos() + h.length] + seqPos;
      }
    }

    /** pop: read octet by octet up to the end of the innermost structure. */
    method PopEnd(ghost pending: Option<tagnum>) returns (ok: bool)
      requires Valid() && seqPos != []
      modifies this, s, s.stream
      ensures ok <==> AsnDecode.Pop(Data(), old(View(pending))).Some?
      ensures ok ==> MovedTo(s.Pos()) && View(pending) == AsnDecode.Pop(Data(), old(View(pending))).value
    {
      var pos := seqPos[0];
      seqPos := seqPos[1..];
      ok := true;
      while s.Pos() < pos
        invariant MovedTo(s.Pos()) && seqPos == old(seqPos[1..]) && ok
        invariant old(s.Pos()) <= s.Pos() && (s.Pos() <= pos || s.Pos() == old(s.Pos()))
        decreases pos - s.Pos()
      {
        var b;
        ok, b := ReadOctet();
        if !ok {
          return;
        }
      }
    }

    method DecodePrimitive(p: Primitive, tag: Option<tagnum>) returns (r: Result<Value>)
      requires Valid() && (p.Integer? ==> 1 <= p.width <= 8)
      modifies s, s.stream
      ensures r.Done? || r.NotPresent? ==> MovedTo(s.Pos()) && Agrees(r, DecodePrim(Data(), old(View(tag)), p), View(None))
      ensures !r.Done? && !r.NotPresent? ==> r == Failed && DecodePrim(Data(), old(View(tag)), p) == Malformed
    {
      hide ReadHeader, DecodeContent, Open, BufferedStream.Valid, BufferedStream.Nested, BufferedStream.Peeks;
      var expected := TagHeader(tag, DefaultTag(p), 0, false);
      var h := OpenElement(expected.cls, expected.tag, None);
      match h
      case NotPresent => r := NotPresent;
      case LostInput => r := LostInput;
      case Failed => r := Failed;
      case Done(header) =>
        var v := ReadContent(p, header.length);
        r := if v.Some? then Done(v.value) else Failed;
    }

    method ReadContent(p: Primitive, length: nat) returns (v: Option<Value>)
      requires Valid() && (p.Integer? ==> 1 <= p.width <= 8)
      modifies s, s.stream
      ensures var pos := old(s.Pos());
        && (v.Some? ==> pos + length <= |Data()| && MovedTo(pos + length))
        && (pos + length <= |Data()| ==> v == DecodeContent(p, Data()[pos..pos + length]))
    {
      hide DecodeContent, BufferedStream.Valid, BufferedStream.Nested, BufferedStream.Peeks;
      if TooLong(p, length) {
        DecodeTooLong(p, length);
        return None;
      }
      var ok, content := Read(length);
      if !ok {
        return None;
      }
      v := PrimitiveValue(p, content);
    }

    /** Size of the next element, 0 when its header cannot be read. The peek ends and the
        position comes back on every path. */
    method NextLength() returns (n: nat)
      requires Valid()
      modifies s, s.stream
      ensures var h := ReadHeader(Data(), old(s.Pos()));
        n == (if h.Got? then h.next - old(s.Pos()) + h.value.length else 0)
      ensures s.Pos() == old(s.Pos()) && s.Anchored()
      ensures n > 0 || s.stream.readPos < |Data()| ==> MovedTo(old(s.Pos()))
    {
      hide ReadHeader, BufferedStream.Valid, BufferedStream.Nested;
      var pos := s.Pos();
      var token := s.StartPeek();
      var h := DecodeHeader();
      n := 0;
      if h.Got? {
        n := s.Pos() - pos + h.value.length;
      }
      s.EndPeek(token, false);
      assert s.marks == old(s.marks);
    }

    /** Size of the next element when all of it can be read, else 0. */
    method HasNext() returns (n: nat)
      requires Valid()
      modifies s, s.stream
      ensures n == NextElement(Data(), old(s.Pos()))
      ensures s.Pos() == old(s.Pos()) && s.Anchored()
      ensures n > 0 || s.stream.readPos < |Data()| ==> MovedTo(old(s.Pos()))
    {
      hide ReadHeader, BufferedStream.Valid, BufferedStream.Nested;
      var length := NextLength();
      n := 0;
      if length > 0 {
        var all := s.ReadableBytes(length);
        if all {
          n := length;
        }
      }
    }

    /** Lengths that are refused before the content is read. */
    predicate TooLong(p: Primitive, length: nat) {
      match p
      case Boolean => length > 1 || length == 0
      case Integer(isSigned, w) => length > w + (if isSigned then 0 else 1) || length == 0
      case BigInteger => length == 0
      case RealNumber => length > 14
      case _ => false
    }

    lemma DecodeTooLong(p: Primitive, length: nat)
      requires TooLong(p, length)
      ensures forall content: seq<octet> :: |content| == length ==> DecodeContent(p, content) == None
    {
    }

    method PrimitiveValue(p: Primitive, content: seq<octet>) returns (v: Option<Value>)
      requires p.Integer? ==> 1 <= p.width <= 8
      ensures v == DecodeContent(p, content)
    {
      match p
      case Boolean =>
        var i := DecodeTyped(content, true, 1);
        v := if i.Bad? then None else Some(VBool(i.value != 0));
      case Integer(isSigned, w) =>
        var i := DecodeTyped(content, isSigned, w);
        v := if i.Bad? then None else Some(VInt(i.value));
      case BigInteger => v := if content == [] then None else Some(VOctets(content));
      case RealNumber =>
        if |content| > 14 {
          return None;
        }
        var r := ReadReal(content);
        v := if r.Refused? then None else Some(VReal(r.value));
      case Text => v := Some(VOctets(content));
      case OctetString => v := Some(VOctets(content));
    }

    /** start_sequence and start_explicit_tag: the header must be constructed. */
    method StartStructure(cls: nat, tag: nat, ghost pending: Option<tagnum>) returns (r: Result<()>)
      requires Valid()
      modifies this, s, s.stream
      ensures r.Done? || r.NotPresent? ==> MovedTo(s.Pos()) && Agrees(r, Started(Data(), old(View(pending)), cls, tag), View(pending))
      ensures !r.Done? && !r.NotPresent? ==> r == Failed && Started(Data(), old(View(pending)), cls, tag) == Malformed
    {
      var h := OpenElement(cls, tag, pending);
      match h
      case NotPresent => r := NotPresent;
      case LostInput => r := LostInput;
      case Failed => r := Failed;
      case Done(header) =>
        var ok := PushEnd(header, pending);
        r := if ok then Done(()) else Failed;
    }
  }

  /** Open a structure and remember its end. */
  function Started(data: seq<octet>, st: State, cls: nat, tag: nat): Outcome<()>
    requires st.pos <= |data|
  {
    match Open(data, st, cls, tag)
    case Missing(next) => Missing(next)
    case Lost => Lost
    case Malformed => Malformed
    case Ok(h, next) =>
      match AsnDecode.Push(next, h)
      case None => Malformed
      case Some(inside) => Ok((), inside)
  }

  /** Size of the element that lies whole at pos, 0 when none does. */
  function NextElement(data: seq<octet>, pos: nat): (n: nat)
    requires pos <= |data|
    ensures pos + n <= |data|
  {
    match ReadHeader(data, pos)
    case NoParse => 0
    case Got(h, next) => if next + h.length <= |data| then next - pos + h.length else 0
  }

  /** A missing element leaves the position where it was. */
  function RolledBack(o: Outcome<Value>, pos: nat): Outcome<Value> {
    match o
    case Missing(st) => Missing(st.(pos := pos))
    case _ => o
  }

  /** Items already read, followed by what the rest gives. */
  function Prepend(items: seq<Value>, o: Outcome<seq<Value>>): Outcome<seq<Value>> {
    match o
    case Ok(vs, st) => Ok(items + vs, st)
    case _ => o
  }

  /** The widths of the C++ integer types. */
  predicate WidthsOk(s: Schema)
    decreases s, 1
  {
    match s
    case Prim(p) => p.Integer? ==> 1 <= p.width <= 8
    case Sequence(fields) => FieldWidthsOk(fields)
    case Container(e) => WidthsOk(e)
    case Implicit(_, inner) => WidthsOk(inner)
    case Explicit(_, inner) => WidthsOk(inner)
  }

  predicate FieldWidthsOk(fs: seq<Field>)
    decreases fs, 0
  {
    fs != [] ==>
      assert fs[0].schema < fs[0];
      WidthsOk(fs[0].schema) && FieldWidthsOk(fs[1..])
  }

  class Deserialiser {
    const dec: Decoder
    var currentTag: Option<tagnum>

    constructor (dec: Decoder)
      ensures this.dec == dec && currentTag == None
    {
      this.dec := dec;
      currentTag := None;
    }

    ghost function View(): State
      requires dec.Valid()
      reads this, dec, dec.s, dec.s.stream
    {
      dec.View(currentTag)
    }

    method UseCurrentTag() returns (tag: Option<tagnum>)
      modifies this
      ensures tag == old(currentTag) && currentTag == None
    {
      tag := currentTag;
      currentTag := None;
    }

    /** Read a value of the schema's type. */
    method Deserialise(s: Schema) returns (r: Result<Value>)
      requires dec.Valid() && WidthsOk(s)
      modifies this, dec, dec.s, dec.s.stream
      ensures r.Done? || r.NotPresent? ==> dec.MovedTo(dec.s.Pos()) && Agrees(r, Decode(dec.Data(), old(View()), s), View())
      ensures r.LostInput? ==> Decode(dec.Data(), old(View()), s) == Lost
      ensures r.Failed? ==> Decode(dec.Data(), old(View()), s) == Malformed
      decreases s, 1, 0
    {
      match s
      case Prim(p) =>
        var tag := UseCurrentTag();
        r := dec.DecodePrimitive(p, tag);
      case Implicit(t, inner) =>
        currentTag := Some(t);
        r := Deserialise(inner);
      case Sequence(fields) =>
        r := DeserialiseSequence(fields);
      case Container(e) =>
        r := DeserialiseContainer(e);
      case Explicit(t, inner) =>
        var started := dec.StartStructure(CONTEXT, t, currentTag);
        match started
        case NotPresent => r := NotPresent;
        case LostInput => r := LostInput;
        case Failed => r := Failed;
        case Done(_) =>
          // no scope object: a missing inner element leaves the end pushed
          r := Deserialise(inner);
          if r.Done? {
            var ok := dec.PopEnd(currentTag);
            if !ok {
              r := Failed;
            }
          }
    }

    method DeserialiseSequence(fields: seq<Field>) returns (r: Result<Value>)
      requires dec.Valid() && FieldWidthsOk(fields)
      modifies this, dec, dec.s, dec.s.stream
      ensures r.Done? || r.NotPresent? ==> dec.MovedTo(dec.s.Pos()) && Agrees(r, Decode(dec.Data(), old(View()), Sequence(fields)), View())
      ensures r.LostInput? ==> Decode(dec.Data(), old(View()), Sequence(fields)) == Lost
      ensures r.Failed? ==> Decode(dec.Data(), old(View()), Sequence(fields)) == Malformed
      decreases fields, 1, 0
    {
      hide Open, DecodeFields, DecodeItems, BufferedStream.Valid, BufferedStream.Nested, BufferedStream.Peeks;
      var tag := UseCurrentTag();
      var expected := TagHeader(tag, TAG_SEQUENCE, 0, true);
      var started := dec.StartStructure(expected.cls, expected.tag, None);
      match started
      case NotPresent => r := NotPresent;
      case LostInput => r := LostInput;
      case Failed => r := Failed;
      case Done(_) =>
        ghost var inside := View();
        var vs := DeserialiseFields(fields);
        var left := LeaveScope(vs, DecodeFields(dec.Data(), inside, fields));
        match left
        case Done(values) => r := Done(VStruct(values));
        case NotPresent => r := NotPresent;
        case LostInput => r := LostInput;
        case Failed => r := Failed;
    }

    method DeserialiseContainer(e: Schema) returns (r: Result<Value>)
      requires dec.Valid() && WidthsOk(e)
      modifies this, dec, dec.s, dec.s.stream
      ensures r.Done? || r.NotPresent? ==> dec.MovedTo(dec.s.Pos()) && Agrees(r, Decode(dec.Data(), old(View()), Container(e)), View())
      ensures r.LostInput? ==> Decode(dec.Data(), old(View()), Container(e)) == Lost
      ensures r.Failed? ==> Decode(dec.Data(), old(View()), Container(e)) == Malformed
      decreases e, 3, 0
    {
      hide Open, DecodeFields, DecodeItems, BufferedStream.Valid, BufferedStream.Nested, BufferedStream.Peeks;
      var tag := UseCurrentTag();
      var expected := TagHeader(tag, TAG_SEQUENCE, 0, true);
      var started := dec.StartStructure(expected.cls, expected.tag, None);
      match started
      case NotPresent => r := NotPresent;
      case LostInput => r := LostInput;
      case Failed => r := Failed;
      case Done(_) =>
        ghost var inside := View();
        var vs := DeserialiseItems(e);
        var left := LeaveScope(vs, DecodeItems(dec.Data(), inside, e));
        match left
        case Done(values) => r := Done(VList(values));
        case NotPresent => r := NotPresent;
        case LostInput => r := LostInput;
        case Failed => r := Failed;
    }

    /** The destructor of a sequence: pop, whatever happened inside. */
    method LeaveScope<T(==)>(r: Result<T>, ghost o: Outcome<T>) returns (q: Result<T>)
      requires r.Done? || r.NotPresent? ==> dec.Valid() && dec.seqPos != [] && Agrees(r, o, View())
      requires r.LostInput? ==> o == Lost
      requires r.Failed? ==> o == Malformed
      modifies dec, dec.s, dec.s.stream
      ensures q.Done? || q.NotPresent? ==> dec.MovedTo(dec.s.Pos()) && Agrees(q, Leave(dec.Data(), o), View())
      ensures q.LostInput? ==> Leave(dec.Data(), o) == Lost
      ensures q.Failed? ==> Leave(dec.Data(), o) == Malformed
    {
      q := r;
      if r.Done? || r.NotPresent? {
        var ok := dec.PopEnd(currentTag);
        if !ok {
          q := if r.Done? then Failed else LostInput;
        }
      }
    }

    method DeserialiseFields(fs: seq<Field>) returns (r: Result<seq<Option<Value>>>)
      requires dec.Valid() && FieldWidthsOk(fs)
      modifies this, dec, dec.s, dec.s.stream
      ensures r.Done? || r.NotPresent? ==> dec.MovedTo(dec.s.Pos()) && Agrees(r, DecodeFields(dec.Data(), old(View()), fs), View())
      ensures r.LostInput? ==> DecodeFields(dec.Data(), old(View()), fs) == Lost
      ensures r.Failed? ==> DecodeFields(dec.Data(), old(View()), fs) == Malformed
      decreases fs, 0, 0
    {
      if fs == [] {
        return Done([]);
      }
      assert fs[0].schema < fs[0];
      var first := DeserialiseField(fs[0].schema, fs[0].optional);
      match first
      case NotPresent => r := NotPresent;
      case LostInput => r := LostInput;
      case Failed => r := Failed;
      case Done(v) =>
        var rest := DeserialiseFields(fs[1..]);
        match rest
        case NotPresent => r := NotPresent;
        case LostInput => r := LostInput;
        case Failed => r := Failed;
        case Done(vs) => r := Done([v] + vs);
    }

    /** A field: an optional one is read under a peek that a missing element undoes. */
    method DeserialiseField(s: Schema, optional: bool) returns (r: Result<Option<Value>>)
      requires dec.Valid() && WidthsOk(s)
      modifies this, dec, dec.s, dec.s.stream
      ensures var o := DecodeField(Decode(dec.Data(), old(View()), s), old(View()), optional);
        && (r.Done? || r.NotPresent? ==> dec.MovedTo(dec.s.Pos()) && Agrees(r, o, View()))
        && (r.LostInput? ==> o == Lost)
        && (r.Failed? ==> o == Malformed)
      decreases s, 3, 0
    {
      hide Decode, BufferedStream.Valid, BufferedStream.Nested, BufferedStream.Peeks;
      var v;
      if optional {
        v := DeserialiseUnderPeek(s);
      } else {
        v := Deserialise(s);
      }
      match v
      case Done(value) => r := Done(Some(value));
      case NotPresent => r := if optional then Done(None) else NotPresent;
      case LostInput => r := if optional then Failed else LostInput;
      case Failed => r := Failed;
    }

    method DeserialiseUnderPeek(s: Schema) returns (r: Result<Value>)
      requires dec.Valid() && WidthsOk(s)
      modifies this, dec, dec.s, dec.s.stream
      ensures r.Done? || r.NotPresent? ==>
        dec.MovedTo(dec.s.Pos()) && Agrees(r, RolledBack(Decode(dec.Data(), old(View()), s), old(dec.s.Pos())), View())
      ensures r.LostInput? ==> Decode(dec.Data(), old(View()), s) == Lost
      ensures r.Failed? ==> Decode(dec.Data(), old(View()), s) == Malformed
      decreases s, 2, 0
    {
      hide Decode, BufferedStream.Valid, BufferedStream.Nested;
      ghost var marks, pos, base := dec.s.marks, dec.s.Pos(), dec.s.realPos;
      var token := dec.s.StartPeek();
      assert dec.Valid() && dec.s.marks == marks + [pos];
      r := Deserialise(s);
      if r.Done? || r.NotPresent? {
        assert dec.s.marks == marks + [pos] && dec.s.marks[..|marks|] == marks;
        assert dec.s.realPos == base;
        dec.EndPeek(token, r.Done?);
        assert dec.s.marks == marks && dec.s.realPos == base;
        assert dec.MovedTo(dec.s.Pos());
        hide BufferedStream.Peeks, Decoder.MovedTo;
      }
    }

    /** The container loop with its progress guard. */
    method DeserialiseItems(e: Schema) returns (r: Result<seq<Value>>)
      requires dec.Valid() && WidthsOk(e)
      modifies this, dec, dec.s, dec.s.stream
      ensures r.Done? || r.NotPresent? ==> dec.MovedTo(dec.s.Pos()) && Agrees(r, DecodeItems(dec.Data(), old(View()), e), View())
      ensures r.LostInput? ==> DecodeItems(dec.Data(), old(View()), e) == Lost
      ensures r.Failed? ==> DecodeItems(dec.Data(), old(View()), e) == Malformed
      decreases e, 2, 0
    {
      hide Decode, BufferedStream.Valid, BufferedStream.Nested, BufferedStream.Peeks;
      var items: seq<Value> := [];
      ghost var goal := DecodeItems(dec.Data(), View(), e);
      assert Prepend([], goal) == goal by {
        if goal.Ok? {
          assert [] + goal.value == goal.value;
        }
      }
      while !dec.IsEndOfSequence()
        invariant dec.Valid() && dec.MovedTo(dec.s.Pos())
        invariant goal == Prepend(items, DecodeItems(dec.Data(), View(), e))
        decreases |dec.Data()| - dec.s.Pos()
      {
        var before := dec.s.Pos();
        ghost var rest := View();
        var v := Deserialise(e);
        match v
        case NotPresent => return NotPresent;
        case LostInput => return LostInput;
        case Failed => return Failed;
        case Done(value) =>
          if dec.s.Pos() == before {
            return Failed;
          }
          PrependStep(items, value, DecodeItems(dec.Data(), View(), e));
          items := items + [value];
      }
      assert items + [] == items;
      r := Done(items);
    }
  }

  lemma PrependStep(items: seq<Value>, v: Value, o: Outcome<seq<Value>>)
    ensures Prepend(items + [v], o) == Prepend(items, Prepend([v], o))
  {
    if o.Ok? {
      assert items + [v] + o.value == items + ([v] + o.value);
    }
  }

  /** A deserialiser at the start of the octets. */
  method NewDeserialiser(octets: seq<octet>) returns (deser: Deserialiser)
    ensures fresh(deser) && fresh(deser.dec) && fresh(deser.dec.s) && fresh(deser.dec.s.stream)
    ensures deser.dec.Valid() && deser.dec.Data() == octets && deser.View() == State(0, [], None)
  {
    var stream := new SpanStream(octets);
    var buffered := new BufferedStream(stream);
    var dec := new Decoder(buffered);
    deser := new Deserialiser(dec);
  }

  /** asn_der_deserialise: one value from the start of the octets. */
  method AsnDerDeserialise(octets: seq<octet>, s: Schema) returns (r: Result<Value>)
    requires WidthsOk(s)
    ensures var o := Decode(octets, State(0, [], None), s);
      && (r.Done? <==> o.Ok?) && (r.Done? ==> r.value == o.value)
      && (r.NotPresent? <==> o.Missing?) && (r.LostInput? <==> o.Lost?)
  {
    hide *;
    var deser := NewDeserialiser(octets);
    r := deser.Deserialise(s);
  }
}
