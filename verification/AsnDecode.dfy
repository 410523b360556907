/** What asn_der_decoder and deserialiser do, as functions of the whole input and a
    state: position, end positions of the open sequences (innermost first) and pending
    implicit tag. */
module AsnDecode {
  import opened Octets
  import opened AsnInteger
  import opened AsnHeader
  import opened AsnReal
  import opened AsnSchema
  import opened Options

  datatype State = State(pos: nat, ends: seq<nat>, pending: Option<tagnum>)

  /** Missing: element_not_present was thrown. Lost: it was thrown, and skipping to the
      end of an enclosing sequence then ran out of input. Malformed: any other error. */
  datatype Outcome<+T> = Ok(value: T, state: State) | Missing(state: State) | Lost | Malformed

  /** States a decoder can be in, and that a step from st can lead to. */
  predicate Follows(st: State, next: State, data: seq<octet>) {
    st.pos <= next.pos <= |data| && |st.ends| <= |next.ends|
  }

  predicate OutcomeFollows<T>(st: State, r: Outcome<T>, data: seq<octet>) {
    ((r.Ok? || r.Missing?) ==> Follows(st, r.state, data))
  }

  predicate AtEnd(st: State) {
    st.ends != [] && st.ends[0] <= st.pos
  }

  /** decode_header(class, tag). */
  function Open(data: seq<octet>, st: State, cls: nat, tag: nat): (r: Outcome<Header>)
    requires st.pos <= |data|
    ensures OutcomeFollows(st, r, data)
    ensures r.Ok? || r.Missing? ==> r.state.ends == st.ends && r.state.pending == st.pending
    ensures r.Ok? ==> r.state.pos > st.pos
  {
    if AtEnd(st) || (st.ends == [] && st.pos == |data|) then Missing(st)
    else
      match ReadHeader(data, st.pos)
      case NoParse => Malformed
      case Got(h, next) =>
        if h.cls != cls || h.tag != tag then Missing(st.(pos := next)) else Ok(h, st.(pos := next))
  }

  /** Open with the pending tag, which is used up. */
  function OpenTagged(data: seq<octet>, st: State, default: tagnum): (r: Outcome<Header>)
    requires st.pos <= |data|
    ensures OutcomeFollows(st, r, data)
    ensures r.Ok? || r.Missing? ==> r.state.ends == st.ends && r.state.pending == None
    ensures r.Ok? ==> r.state.pos > st.pos
  {
    var h := TagHeader(st.pending, default, 0, false);
    Open(data, st.(pending := None), h.cls, h.tag)
  }

  /** push: remember where the structure ends. */
  function Push(st: State, h: Header): (r: Option<State>) {
    if !h.constructed || |st.ends| >= MAX_DEPTH then None
    else Some(st.(ends := [st.pos + h.length] + st.ends))
  }

  /** pop: skip to the innermost end; no state when the input is too short. */
  function Pop(data: seq<octet>, st: State): (r: Option<State>)
    requires st.pos <= |data| && st.ends != []
    ensures r.Some? ==> st.pos <= r.value.pos <= |data| && r.value.ends == st.ends[1..]
  {
    if st.pos >= st.ends[0] then Some(st.(ends := st.ends[1..]))
    else if st.ends[0] > |data| then None
    else Some(State(st.ends[0], st.ends[1..], st.pending))
  }

  /** Leaving the scope of a sequence, which pops however its content ended. */
  function Leave<T>(data: seq<octet>, r: Outcome<T>): (q: Outcome<T>)
    requires r.Ok? || r.Missing? ==> r.state.pos <= |data| && r.state.ends != []
  {
    match r
    case Ok(v, st) =>
      (match Pop(data, st)
       case Some(next) => Ok(v, next)
       case None => Malformed)
    case Missing(st) =>
      (match Pop(data, st)
       case Some(next) => Missing(next)
       case None => Lost)
    case Lost => Lost
    case Malformed => Malformed
  }

  // ---- primitives ----

  function DecodeContent(p: Primitive, s: seq<octet>): Option<Value> {
    match p
    case Boolean => (match DecodeInteger(s, true, 1) case Value(i) => Some(VBool(i != 0)) case Bad => None)
    case Integer(isSigned, w) => (match DecodeInteger(s, isSigned, w) case Value(i) => Some(VInt(i)) case Bad => None)
    case BigInteger => if s == [] then None else Some(VOctets(s))
    case RealNumber =>
      if |s| > 14 then None else (match DecodeReal(s) case Exact(r) => Some(VReal(r)) case Refused => None)
    case Text => Some(VOctets(s))
    case OctetString => Some(VOctets(s))
  }

  function DecodePrim(data: seq<octet>, st: State, p: Primitive): (r: Outcome<Value>)
    requires st.pos <= |data|
    ensures OutcomeFollows(st, r, data)
    ensures r.Ok? ==> r.state.pos > st.pos
  {
    match OpenTagged(data, st, DefaultTag(p))
    case Missing(next) => Missing(next)
    case Lost => Lost
    case Malformed => Malformed
    case Ok(h, next) =>
      if next.pos + h.length > |data| then Malformed else
        match DecodeContent(p, data[next.pos..next.pos + h.length])
        case Some(v) => Ok(v, next.(pos := next.pos + h.length))
        case None => Malformed
  }

  // ---- structures ----

  function Decode(data: seq<octet>, st: State, s: Schema): (r: Outcome<Value>)
    requires st.pos <= |data|
    ensures OutcomeFollows(st, r, data)
    decreases s, 1, 0
  {
    match s
    case Prim(p) => DecodePrim(data, st, p)
    case Implicit(t, inner) => Decode(data, st.(pending := Some(t)), inner)
    case Sequence(fields) =>
      (match OpenTagged(data, st, TAG_SEQUENCE)
       case Missing(next) => Missing(next)
       case Lost => Lost
       case Malformed => Malformed
       case Ok(h, next) =>
         match Push(next, h)
         case None => Malformed
         case Some(inside) =>
           match Leave(data, DecodeFields(data, inside, fields))
           case Ok(vs, after) => Ok(VStruct(vs), after)
           case Missing(after) => Missing(after)
           case Lost => Lost
           case Malformed => Malformed)
    case Container(e) =>
      (match OpenTagged(data, st, TAG_SEQUENCE)
       case Missing(next) => Missing(next)
       case Lost => Lost
       case Malformed => Malformed
       case Ok(h, next) =>
         match Push(next, h)
         case None => Malformed
         case Some(inside) =>
           match Leave(data, DecodeItems(data, inside, e))
           case Ok(vs, after) => Ok(VList(vs), after)
           case Missing(after) => Missing(after)
           case Lost => Lost
           case Malformed => Malformed)
    case Explicit(t, inner) =>
      (match Open(data, st, CONTEXT, t)
       case Missing(next) => Missing(next)
       case Lost => Lost
       case Malformed => Malformed
       case Ok(h, next) =>
         match Push(next, h)
         case None => Malformed
         case Some(inside) =>
           // no scope object here: when the inner element is missing the end stays pushed
           match Decode(data, inside, inner)
           case Ok(v, after) => Leave(data, Ok(v, after))
           case Missing(after) => Missing(after)
           case Lost => Lost
           case Malformed => Malformed)
  }

  function DecodeFields(data: seq<octet>, st: State, fs: seq<Field>): (r: Outcome<seq<Option<Value>>>)
    requires st.pos <= |data|
    ensures OutcomeFollows(st, r, data)
    decreases fs, 0, 0
  {
    if fs == [] then Ok([], st) else
      assert fs[0].schema < fs[0];
      match DecodeField(Decode(data, st, fs[0].schema), st, fs[0].optional)
      case Missing(next) => Missing(next)
      case Lost => Lost
      case Malformed => Malformed
      case Ok(v, next) =>
        match DecodeFields(data, next, fs[1..])
        case Ok(vs, after) => Ok([v] + vs, after)
        case Missing(after) => Missing(after)
        case Lost => Lost
        case Malformed => Malformed
  }

  /** An optional field peeks: a missing element rolls the position back and is absent. */
  function DecodeField(r: Outcome<Value>, st: State, optional: bool): Outcome<Option<Value>> {
    match r
    case Ok(v, next) => Ok(Some(v), next)
    case Missing(next) => if optional then Ok(None, next.(pos := st.pos)) else Missing(next)
    case Lost => if optional then Malformed else Lost
    case Malformed => Malformed
  }

  /** Elements until the end of the sequence; one that consumes nothing is an error. */
  function DecodeItems(data: seq<octet>, st: State, e: Schema): (r: Outcome<seq<Value>>)
    requires st.pos <= |data|
    ensures OutcomeFollows(st, r, data)
    decreases e, 2, |data| - st.pos
  {
    if AtEnd(st) then Ok([], st) else
      match Decode(data, st, e)
      case Missing(next) => Missing(next)
      case Lost => Lost
      case Malformed => Malformed
      case Ok(v, next) =>
        if next.pos == st.pos then Malformed else
          match DecodeItems(data, next, e)
          case Ok(vs, after) => Ok([v] + vs, after)
          case Missing(after) => Missing(after)
          case Lost => Lost
          case Malformed => Malformed
  }
}
