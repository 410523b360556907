/** Base-2 reals of securepath/serialisation/codec/asn_der/util.hpp. A double is kept as
    sign, integer significand and exponent, so frexp, the multiplications by 256 and
    ldexp are exact integer steps, as they are on normal doubles. */
module AsnReal {
  import opened Octets
  import opened AsnInteger
  import opened AsnUtil
  import opened Options

  const TWO53: nat := 0x20_0000_0000_0000

  /** Normal(n, s, e) is s * 2^e with 2^52 <= s < 2^53. Other stands for what decoding
      gives when the value is not a normal double; the encoder never writes such octets. */
  datatype Real =
    | Zero(negative: bool)
    | Infinite(negative: bool)
    | NaN
    | Normal(negative: bool, significand: nat, exponent: int)
    | Subnormal
    | Other(content: seq<octet>)

  predicate IsDouble(r: Real) {
    r.Normal? ==> TWO53 <= 2 * r.significand < 2 * TWO53 && -1074 <= r.exponent <= 971
  }

  /** What encode_real writes rather than refuses. */
  predicate Encodable(r: Real) {
    IsDouble(r) && !r.Subnormal? && !r.Other?
  }

  // ---- odd mantissas ----

  /** Number of factors two in v. */
  function Twos(v: nat): nat
    requires v > 0
  {
    if v % 2 == 1 then 0 else 1 + Twos(v / 2)
  }

  function OddPart(v: nat): (m: nat)
    requires v > 0
    ensures m % 2 == 1 && m > 0
  {
    if v % 2 == 1 then v else OddPart(v / 2)
  }

  lemma {:induction false} OddTimesTwos(v: nat)
    requires v > 0
    ensures v == OddPart(v) * Pow2(Twos(v))
  {
    if v % 2 == 0 {
      OddTimesTwos(v / 2);
      assert OddPart(v / 2) * (Pow2(Twos(v / 2)) * 2) == OddPart(v / 2) * Pow2(Twos(v / 2)) * 2;
    }
  }

  lemma {:induction false} TwosOfProduct(m: nat, k: nat, v: nat)
    requires m % 2 == 1 && v == m * Pow2(k)
    ensures v > 0 && Twos(v) == k && OddPart(v) == m
    decreases k
  {
    if k == 0 {
      assert Pow2(0) == 1;
    } else {
      var u := m * Pow2(k - 1);
      TwosOfProduct(m, k - 1, u);
      assert v == 2 * u by {
        DoublePow(k);
        MoveTwo(m, Pow2(k - 1));
      }
      TwosOfDouble(u);
    }
  }

  lemma TwosOfDouble(v: nat)
    requires v > 0
    ensures Twos(2 * v) == Twos(v) + 1 && OddPart(2 * v) == OddPart(v)
  {
  }

  lemma OddPartAtMost(v: nat)
    requires v > 0
    ensures OddPart(v) <= v
  {
    OddTimesTwos(v);
    assert OddPart(v) * (Pow2(Twos(v)) - 1) >= 0;
  }

  // ---- content octets ----

  /** Content octets of X.690 sections 8.5 and 11.3.1: base 2, scale 0, odd mantissa. */
  function RealOctets(r: Real): (s: seq<octet>)
    requires Encodable(r)
  {
    match r
    case Zero(negative) => if negative then [0x43] else []
    case Infinite(negative) => [if negative then 0x41 else 0x40]
    case NaN => [0x42]
    case Normal(negative, s, e) =>
      ExponentSize(e, s);
      NormalOctets(negative, e + Twos(s), OddPart(s))
  }

  function NormalOctets(negative: bool, e: int, m: nat): seq<octet>
    requires IntegerSize(e) <= 3
  {
    var exponent := IntegerOctets(e);
    [0x80 + (if negative then 0x40 else 0) + |exponent| - 1] + exponent + Mantissa(m)
  }

  function Mantissa(m: nat): seq<octet> {
    Digits(m, MinDigits(m, 256), 256)
  }

  lemma {:induction false} TwosBound(v: nat, n: nat)
    requires 0 < v < Pow2(n)
    ensures Twos(v) < n
    decreases n
  {
    if v % 2 == 0 {
      assert Pow2(n) == Pow2(n - 1) * 2;
      TwosBound(v / 2, n - 1);
    }
  }

  lemma Pow53()
    ensures Pow2(53) == TWO53
  {
    OctetPow(6);
    assert Pow(256, 6) == 0x1_0000_0000_0000;
    PowAdd(2, 48, 5);
    assert Pow(2, 5) == 32;
  }

  lemma ExponentSize(e: int, s: nat)
    requires -1074 <= e <= 971 && 0 < s < TWO53
    ensures 0 <= Twos(s) < 53
    ensures IntegerSize(e + Twos(s)) <= 2
  {
    Pow53();
    TwosBound(s, 53);
    assert Pow(256, 2) == 65536;
    IntegerBound(e + Twos(s), 2);
  }

  // ---- reading ----

  datatype RealResult = Exact(value: Real) | Refused

  function DecodeReal(s: seq<octet>): RealResult {
    if s == [] then Exact(Zero(false))
    else if |s| == 1 then
      (if s[0] == 0x42 then Exact(NaN)
       else if s[0] == 0x40 then Exact(Infinite(false))
       else if s[0] == 0x41 then Exact(Infinite(true))
       else if s[0] == 0x43 then Exact(Zero(true))
       else Refused)
    else DecodeNormal(s)
  }

  function DecodeNormal(s: seq<octet>): RealResult
    requires |s| > 1
  {
    var b := s[0];
    if b < 0x80 then Refused
    else if b / 0x10 % 4 != 0 || b / 4 % 4 != 0 then Refused
    else
      var long := b % 4 == 3;
      var at: nat := if long then 2 else 1;
      var size: nat := if long then s[1] else b % 4 + 1;
      if |s| < at + size + 1 then Refused
      else
        var exponent := IntegerRead(s[at..], size, 4, true, 4);
        match Scale(b / 0x40 % 2 == 1, UnsignedVal(s[at + size..]), exponent)
        case Some(r) => Exact(r)
        case None => Exact(Other(s))
  }

  /** The double m * 2^e, when it is zero or a normal one. */
  function Scale(negative: bool, m: nat, e: int): Option<Real>
    decreases if m >= TWO53 then m else TWO53 - m
  {
    if m == 0 then Some(Zero(negative))
    else if m >= TWO53 then (if m % 2 == 0 then Scale(negative, m / 2, e + 1) else None)
    else if 2 * m >= TWO53 then (if -1074 <= e <= 971 then Some(Normal(negative, m, e)) else None)
    else Scale(negative, 2 * m, e - 1)
  }

  lemma {:induction false} ScaleUp(negative: bool, m: nat, k: nat, e: int, s: nat)
    requires m > 0 && s == m * Pow2(k) && s < TWO53 <= 2 * s
    ensures Scale(negative, m, e) == Scale(negative, s, e - k)
    decreases k
  {
    if k > 0 {
      Doubling(m, k);
      ScaleUp(negative, 2 * m, k - 1, e - 1, s);
    }
  }

  lemma Doubling(m: nat, k: nat)
    requires k > 0
    ensures (2 * m) * Pow2(k - 1) == m * Pow2(k) >= 2 * m
  {
    hide Pow2;
    assert Pow2(k) == Pow2(k - 1) * 2 by { DoublePow(k); }
    MoveTwo(m, Pow2(k - 1));
  }

  lemma DoublePow(k: nat)
    requires k > 0
    ensures Pow2(k) == Pow2(k - 1) * 2
  {
  }

  lemma MoveTwo(m: nat, p: nat)
    requires p > 0
    ensures 2 * (m * p) == (2 * m) * p == m * (p * 2) >= 2 * m
  {
    assert 2 * m * (p - 1) >= 0;
  }

  /** Every double the encoder accepts comes back as the same double. */
  lemma RealRoundTrip(r: Real)
    requires Encodable(r)
    ensures DecodeReal(RealOctets(r)) == Exact(r)
  {
    if r.Normal? {
      NormalRoundTrip(r);
    }
  }

  lemma NormalRoundTrip(r: Real)
    requires IsDouble(r) && r.Normal?
    ensures DecodeReal(RealOctets(r)) == Exact(r)
  {
    hide RealOctets, IntegerSize, OddPart, Twos, DecodeReal, NormalOctets, Pow2;
    var s := r.significand;
    var m, k := OddPart(s), Twos(s);
    OctetsOfNormal(r);
    FieldsRoundTrip(r.negative, r.exponent + k, m);
    OddTimesTwos(s);
    ScaleUp(r.negative, m, k, r.exponent + k, s);
  }

  lemma OctetsOfNormal(r: Real)
    requires IsDouble(r) && r.Normal?
    ensures 0 <= Twos(r.significand) < 53 && IntegerSize(r.exponent + Twos(r.significand)) <= 2
    ensures RealOctets(r) == NormalOctets(r.negative, r.exponent + Twos(r.significand), OddPart(r.significand))
  {
    ExponentSize(r.exponent, r.significand);
  }

  lemma FieldsRoundTrip(negative: bool, e: int, m: nat)
    requires 1 <= IntegerSize(e) <= 2
    ensures Scale(negative, m, e).Some? ==>
      DecodeReal(NormalOctets(negative, e, m)) == Exact(Scale(negative, m, e).value)
  {
    hide Scale, IntegerOctets, TwosComplement, Digits, IntegerSize, IntegerRead;
    var x := IntegerOctets(e);
    var b: octet := 0x80 + (if negative then 0x40 else 0) + |x| - 1;
    var s: seq<octet> := [b] + x + Mantissa(m);
    LeadOctet(negative, |x|);
    assert s[1..][..|x|] == x;
    ReadFits(s[1..], |x|, 4, 4);
    assert s[1 + |x|..] == Mantissa(m);
    MantissaVal(m);
    IntegerRoundTrip(e);
  }

  lemma LeadOctet(negative: bool, n: nat)
    requires 1 <= n <= 2
    ensures var b := 0x80 + (if negative then 0x40 else 0) + n - 1;
            b >= 0x80 && b / 0x10 % 4 == 0 && b / 4 % 4 == 0 && b % 4 + 1 == n
            && (b / 0x40 % 2 == 1 <==> negative)
  {
  }

  lemma MantissaVal(m: nat)
    ensures UnsignedVal(Mantissa(m)) == m
  {
    MinDigitsIsLeast(m, 256, MinDigits(m, 256));
    ValDigits(m, MinDigits(m, 256), 256);
  }
}
