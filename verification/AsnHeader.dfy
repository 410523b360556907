/** Element headers: identifier and length octets of X.690 sections 8.1.2 and 8.1.3,
    as asn_der_encoder writes them and asn_der_decoder reads them. The parser is a
    function of the whole input and a position. */
module AsnHeader {
  import opened Octets
  import opened AsnInteger

  // asn_der/types.hpp
  const UNIVERSAL: nat := 0
  const CONTEXT: nat := 2
  const TAG_BOOLEAN: nat := 0x01
  const TAG_INTEGER: nat := 0x02
  const TAG_OCTETS: nat := 0x04
  const TAG_REAL: nat := 0x09
  const TAG_SEQUENCE: nat := 0x10
  const TAG_STRING: nat := 0x14
  const MAX_PRIMITIVE: nat := 1024 * 1024 * 2
  const MAX_CONSTRUCTED: nat := 1024 * 1024 * 512

  datatype Header = Header(cls: nat, tag: nat, length: nat, constructed: bool)

  function Limit(h: Header): nat {
    if h.constructed then MAX_CONSTRUCTED else MAX_PRIMITIVE
  }

  /** Four classes, 64-bit tag and length. */
  predicate Representable(h: Header) {
    h.cls < 4 && h.tag < TWO64 && h.length < TWO64
  }

  // ---- writing ----

  function FirstOctet(cls: nat, low: nat, constructed: bool): octet
    requires cls < 4 && low < 32
  {
    cls * 64 + (if constructed then 32 else 0) + low
  }

  /** Base-128 digits, all but the last marked with the top bit. */
  function Septets(tag: nat): (s: seq<octet>)
    ensures |s| == MinDigits(tag, 128)
  {
    var n := MinDigits(tag, 128);
    seq(n, i requires 0 <= i < n => Septet(tag, n, i))
  }

  function Septet(tag: nat, n: nat, i: nat): octet
    requires i < n
  {
    Digits(tag, n, 128)[i] + (if i < n - 1 then 128 else 0)
  }

  function TagOctets(h: Header): (s: seq<octet>)
    requires h.cls < 4
    ensures s != []
  {
    if h.tag > 30 then [FirstOctet(h.cls, 31, h.constructed)] + Septets(h.tag)
    else [FirstOctet(h.cls, h.tag, h.constructed)]
  }

  function LengthOctets(length: nat): (s: seq<octet>)
    requires length < TWO64
    ensures s != []
  {
    var n := MinDigits(length, 256);
    LengthDigits(length);
    if length > 127 then [128 + n] + Digits(length, n, 256) else [length]
  }

  function HeaderOctets(h: Header): (s: seq<octet>)
    requires Representable(h)
    ensures s != []
  {
    TagOctets(h) + LengthOctets(h.length)
  }

  lemma LengthDigits(length: nat)
    requires length < TWO64
    ensures MinDigits(length, 256) <= 8
  {
    assert Pow(256, 8) == TWO64;
    MinDigitsIsLeast(length, 256, 8);
  }

  lemma TagDigits(tag: nat)
    requires tag < TWO64
    ensures MinDigits(tag, 128) <= 10
  {
    assert Pow(128, 10) == TWO64 * 64;
    MinDigitsIsLeast(tag, 128, 10);
  }

  // ---- reading ----

  /** Outcome of reading one item: the value and the position after it, or an error. */
  datatype Parse<+T> = Got(value: T, next: nat) | NoParse

  function ReadLongTag(data: seq<octet>, pos: nat, acc: nat, i: nat): (r: Parse<nat>)
    requires pos <= |data|
    ensures r.Got? ==> pos < r.next <= |data| && r.value < TWO64
    decreases |data| - pos
  {
    if pos == |data| then NoParse
    else if data[pos] < 128 then Got(Wrap64(acc * 128 + data[pos]), pos + 1)
    else if i + 1 == 64 / 7 + 1 then NoParse
    else ReadLongTag(data, pos + 1, Wrap64(acc * 128 + data[pos] % 128), i + 1)
  }

  /** Identifier octets, the length still 0. */
  function ReadTag(data: seq<octet>, pos: nat): (r: Parse<Header>)
    requires pos <= |data|
    ensures r.Got? ==> pos < r.next <= |data| && Representable(r.value)
  {
    if pos == |data| then NoParse else
      var b := data[pos];
      var constructed := b / 32 % 2 == 1;
      if b % 32 == 31 then
        match ReadLongTag(data, pos + 1, 0, 0)
        case Got(tag, next) => Got(Header(b / 64, tag, 0, constructed), next)
        case NoParse => NoParse
      else Got(Header(b / 64, b % 32, 0, constructed), pos + 1)
  }

  function ReadLength(data: seq<octet>, pos: nat): (r: Parse<nat>)
    requires pos <= |data|
    ensures r.Got? ==> pos < r.next <= |data| && r.value < TWO64
  {
    if pos == |data| then NoParse
    else if data[pos] < 128 then Got(data[pos], pos + 1)
    else ReadLongLength(data, pos + 1, data[pos] - 128)
  }

  function ReadLongLength(data: seq<octet>, pos: nat, size: nat): (r: Parse<nat>)
    requires pos <= |data|
    ensures r.Got? ==> pos < r.next <= |data| && r.value < TWO64
  {
    if size > 8 || size == 0 || pos + size > |data| then NoParse
    else Got(Wrap64(UnsignedVal(data[pos..pos + size])), pos + size)
  }

  function ReadHeader(data: seq<octet>, pos: nat): (r: Parse<Header>)
    requires pos <= |data|
    ensures r.Got? ==> pos < r.next <= |data| && Representable(r.value) && r.value.length <= Limit(r.value)
  {
    match ReadTag(data, pos)
    case NoParse => NoParse
    case Got(h, p) =>
      match ReadLength(data, p)
      case NoParse => NoParse
      case Got(length, next) =>
        var g := h.(length := length);
        if length > Limit(g) then NoParse else Got(g, next)
  }

  // ---- round trip ----

  predicate At(data: seq<octet>, pos: nat, s: seq<octet>) {
    pos + |s| <= |data| && data[pos..pos + |s|] == s
  }

  lemma AtSplit(data: seq<octet>, pos: nat, s: seq<octet>, t: seq<octet>)
    ensures At(data, pos, s + t) <==> At(data, pos, s) && At(data, pos + |s|, t)
  {
    if pos + |s| + |t| <= |data| {
      assert data[pos..pos + |s| + |t|] == data[pos..pos + |s|] + data[pos + |s|..pos + |s| + |t|];
      if At(data, pos, s + t) {
        assert (s + t)[..|s|] == s && (s + t)[|s|..] == t;
      }
    }
  }

  lemma AtIndex(data: seq<octet>, pos: nat, s: seq<octet>, i: nat)
    requires At(data, pos, s) && i < |s|
    ensures data[pos + i] == s[i]
  {
    assert data[pos..pos + |s|][i] == s[i];
  }

  lemma {:induction false} PrefixVal(s: seq<int>, k: nat, b: nat)
    requires k <= |s| && b > 0 && DigitsOf(s, b)
    ensures 0 <= Val(s[..k], b) <= Val(s, b)
  {
    assert s == s[..k] + s[k..];
    ValConcat(s[..k], s[k..], b);
    ValBound(s[k..], b);
    ValBound(s[..k], b);
    MulAtLeast(Val(s[..k], b), Pow(b, |s| - k));
  }

  lemma MulAtLeast(x: nat, y: nat)
    requires y > 0
    ensures x * y >= x
  {
    assert x * (y - 1) >= 0;
  }

  /** Value of the first k base-128 digits of a tag. */
  function LeadingSeptets(tag: nat, k: nat): nat
    requires k <= MinDigits(tag, 128)
  {
    var d := Digits(tag, MinDigits(tag, 128), 128);
    PrefixVal(d, k, 128);
    Val(d[..k], 128)
  }

  /** With the first k digits accumulated, the loop reads the rest of the tag. */
  lemma {:induction false} LongTagRun(data: seq<octet>, pos: nat, tag: nat, k: nat)
    requires tag < TWO64 && At(data, pos, Septets(tag)) && k < MinDigits(tag, 128)
    ensures ReadLongTag(data, pos + k, LeadingSeptets(tag, k), k) == Got(tag, pos + |Septets(tag)|)
    decreases MinDigits(tag, 128) - k
  {
    hide Digits, MinDigits, LeadingSeptets, Septets;
    SeptetAt(data, pos, tag, k);
    NextSeptet(tag, k);
    if k + 1 < MinDigits(tag, 128) {
      TagDigits(tag);
      LongTagRun(data, pos, tag, k + 1);
    }
  }

  lemma SeptetAt(data: seq<octet>, pos: nat, tag: nat, k: nat)
    requires At(data, pos, Septets(tag)) && k < MinDigits(tag, 128)
    ensures var d := Digits(tag, MinDigits(tag, 128), 128);
            if k + 1 == |d| then data[pos + k] == d[k] < 128 else data[pos + k] >= 128 && data[pos + k] % 128 == d[k]
  {
    AtIndex(data, pos, Septets(tag), k);
  }

  lemma NextSeptet(tag: nat, k: nat)
    requires tag < TWO64 && k < MinDigits(tag, 128)
    ensures var d := Digits(tag, MinDigits(tag, 128), 128);
            LeadingSeptets(tag, k + 1) == Wrap64(LeadingSeptets(tag, k) * 128 + d[k])
    ensures k + 1 == MinDigits(tag, 128) ==> LeadingSeptets(tag, k + 1) == tag
  {
    var d := Digits(tag, MinDigits(tag, 128), 128);
    assert d[..k + 1] == d[..k] + [d[k]];
    ValSnoc(d[..k], d[k], 128);
    PrefixVal(d, k + 1, 128);
    SeptetsValue(tag);
    assert d[..|d|] == d;
  }

  lemma SeptetsValue(tag: nat)
    ensures Val(Digits(tag, MinDigits(tag, 128), 128), 128) == tag
  {
    MinDigitsIsLeast(tag, 128, MinDigits(tag, 128));
    ValDigits(tag, MinDigits(tag, 128), 128);
  }

  lemma LongTagRoundTrip(data: seq<octet>, pos: nat, tag: nat)
    requires tag < TWO64 && At(data, pos, Septets(tag))
    ensures ReadLongTag(data, pos, 0, 0) == Got(tag, pos + |Septets(tag)|)
  {
    assert LeadingSeptets(tag, 0) == 0;
    LongTagRun(data, pos, tag, 0);
  }

  lemma FirstOctetFields(cls: nat, low: nat, constructed: bool)
    requires cls < 4 && low < 32
    ensures var b := FirstOctet(cls, low, constructed);
            b / 64 == cls && b % 32 == low && (b / 32 % 2 == 1 <==> constructed)
  {
  }

  lemma TagRoundTrip(data: seq<octet>, pos: nat, h: Header)
    requires Representable(h) && At(data, pos, TagOctets(h))
    ensures ReadTag(data, pos) == Got(h.(length := 0), pos + |TagOctets(h)|)
  {
    hide ReadLongTag, Septets, FirstOctet;
    AtIndex(data, pos, TagOctets(h), 0);
    FirstOctetFields(h.cls, if h.tag > 30 then 31 else h.tag, h.constructed);
    if h.tag > 30 {
      AtSplit(data, pos, [FirstOctet(h.cls, 31, h.constructed)], Septets(h.tag));
      LongTagRoundTrip(data, pos + 1, h.tag);
    }
  }

  lemma LengthRoundTrip(data: seq<octet>, pos: nat, length: nat)
    requires length < TWO64 && At(data, pos, LengthOctets(length))
    ensures ReadLength(data, pos) == Got(length, pos + |LengthOctets(length)|)
  {
    AtIndex(data, pos, LengthOctets(length), 0);
    if length > 127 {
      var n := MinDigits(length, 256);
      LengthDigits(length);
      AtSplit(data, pos, [128 + n], Digits(length, n, 256));
      LongLengthRoundTrip(data, pos + 1, length);
    }
  }

  lemma LongLengthRoundTrip(data: seq<octet>, pos: nat, length: nat)
    requires length < TWO64 && At(data, pos, Digits(length, MinDigits(length, 256), 256))
    ensures ReadLongLength(data, pos, MinDigits(length, 256)) == Got(length, pos + MinDigits(length, 256))
  {
    hide Digits, MinDigits, Pow, Val;
    var n := MinDigits(length, 256);
    LengthDigits(length);
    MinDigitsIsLeast(length, 256, n);
    ValDigits(length, n, 256);
  }

  /** Whatever bytes follow, an encoded header reads back as itself, ending exactly
      after it, when its length is within the limit for its kind; a longer one is refused. */
  lemma HeaderRoundTrip(data: seq<octet>, pos: nat, h: Header)
    requires Representable(h) && At(data, pos, HeaderOctets(h))
    ensures ReadHeader(data, pos) ==
      if h.length <= Limit(h) then Got(h, pos + |HeaderOctets(h)|) else NoParse
  {
    hide ReadTag, ReadLength, TagOctets, LengthOctets;
    AtSplit(data, pos, TagOctets(h), LengthOctets(h.length));
    TagRoundTrip(data, pos, h);
    LengthRoundTrip(data, pos + |TagOctets(h)|, h.length);
  }

  /** X.690 sections 8.1.2.4.2 and 10.1: no leading zero septet or length octet. */
  lemma NoLeadingZero(h: Header)
    requires Representable(h)
    ensures h.tag > 30 ==> TagOctets(h)[1] != 128
    ensures h.length > 127 ==> LengthOctets(h.length)[1] != 0
  {
    if h.tag > 30 {
      LeadingDigit(h.tag, 128);
    }
    if h.length > 127 {
      LeadingDigit(h.length, 256);
    }
  }

  lemma LeadingDigit(v: nat, b: nat)
    requires b >= 2 && v > 0
    ensures Digits(v, MinDigits(v, b), b)[0] != 0
  {
    var n := MinDigits(v, b);
    var d := Digits(v, n, b);
    MinDigitsIsLeast(v, b, n);
    ValDigits(v, n, b);
    if d[0] == 0 {
      assert d == [d[0]] + d[1..];
      ValConcat([d[0]], d[1..], b);
      assert [d[0]][..0] == [];
      assert Val([d[0]], b) == 0 * b + 0;
      ValBound(d[1..], b);
      if n > 1 {
        MinDigitsIsLeast(v, b, n - 1);
      }
    }
  }

  // ---- shortest form ----

  /** Reading i..j accumulates at most what j - i septets can hold. */
  lemma {:induction false} LongTagSize(data: seq<octet>, pos: nat, acc: nat, i: nat)
    requires pos <= |data| && acc < Pow(128, i)
    requires ReadLongTag(data, pos, acc, i).Got?
    ensures ReadLongTag(data, pos, acc, i).value < Pow(128, i + ReadLongTag(data, pos, acc, i).next - pos)
    decreases |data| - pos
  {
    assert Pow(128, i + 1) == Pow(128, i) * 128;
    if data[pos] >= 128 {
      LongTagSize(data, pos + 1, Wrap64(acc * 128 + data[pos] % 128), i + 1);
    }
  }

  lemma TagIsShortest(data: seq<octet>, pos: nat, length: nat)
    requires pos <= |data| && ReadTag(data, pos).Got?
    ensures var r := ReadTag(data, pos); pos + |TagOctets(r.value.(length := length))| <= r.next
  {
    var r := ReadTag(data, pos);
    if data[pos] % 32 == 31 {
      assert Pow(128, 0) == 1;
      LongTagSize(data, pos + 1, 0, 0);
      MinDigitsIsLeast(r.value.tag, 128, r.next - pos - 1);
    }
  }

  lemma LengthIsShortest(data: seq<octet>, pos: nat)
    requires pos <= |data| && ReadLength(data, pos).Got?
    ensures var r := ReadLength(data, pos); pos + |LengthOctets(r.value)| <= r.next
  {
    if data[pos] >= 128 {
      LongLengthSize(data, pos + 1, data[pos] - 128);
    }
  }

  lemma LongLengthSize(data: seq<octet>, pos: nat, size: nat)
    requires pos <= |data| && ReadLongLength(data, pos, size).Got?
    ensures MinDigits(ReadLongLength(data, pos, size).value, 256) <= size
  {
    var b := data[pos..pos + size];
    ValBound(b, 256);
    MinDigitsIsLeast(ReadLongLength(data, pos, size).value, 256, size);
  }

  /** Among everything the decoder accepts as a header, the encoder's form is shortest. */
  lemma HeaderIsShortest(data: seq<octet>, pos: nat)
    requires pos <= |data| && ReadHeader(data, pos).Got?
    ensures var r := ReadHeader(data, pos); pos + |HeaderOctets(r.value)| <= r.next
  {
    var t := ReadTag(data, pos);
    var l := ReadLength(data, t.next);
    TagIsShortest(data, pos, l.value);
    LengthIsShortest(data, t.next);
  }

  // ---- more input never changes an answer ----

  lemma {:induction false} LongTagStable(data: seq<octet>, more: seq<octet>, pos: nat, acc: nat, i: nat)
    requires pos <= |data| && ReadLongTag(data, pos, acc, i).Got?
    ensures ReadLongTag(data + more, pos, acc, i) == ReadLongTag(data, pos, acc, i)
    decreases |data| - pos
  {
    if data[pos] >= 128 {
      LongTagStable(data, more, pos + 1, Wrap64(acc * 128 + data[pos] % 128), i + 1);
    }
  }

  lemma LengthStable(data: seq<octet>, more: seq<octet>, pos: nat)
    requires pos <= |data| && ReadLength(data, pos).Got?
    ensures ReadLength(data + more, pos) == ReadLength(data, pos)
  {
    if data[pos] >= 128 {
      var size := data[pos] - 128;
      assert (data + more)[pos + 1..pos + 1 + size] == data[pos + 1..pos + 1 + size];
    }
  }

  /** A header that could be read from a prefix is read the same from the whole. */
  lemma HeaderStable(data: seq<octet>, more: seq<octet>, pos: nat)
    requires pos <= |data| && ReadHeader(data, pos).Got?
    ensures ReadHeader(data + more, pos) == ReadHeader(data, pos)
  {
    if data[pos] % 32 == 31 {
      LongTagStable(data, more, pos + 1, 0, 0);
    }
    LengthStable(data, more, ReadTag(data, pos).next);
  }
}
