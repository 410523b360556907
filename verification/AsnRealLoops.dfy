/** The buffer loops behind AsnReal: exporting the mantissa octet by octet, shifting it
    until it is odd, and assembling or taking apart the content octets. */
module AsnRealLoops {
  import opened Octets
  import opened AsnInteger
  import opened AsnUtil
  import opened AsnReal

  // ---- exporting the mantissa ----

  /** The octets of the fraction s / 2^53, up to the last non-zero one. */
  method ExportMantissa(s: nat, buf: array<octet>) returns (length: nat)
    requires buf.Length >= 8 && TWO53 <= 2 * s < 2 * TWO53
    modifies buf
    ensures 1 <= length <= 8 && buf[length - 1] != 0 && buf[0] >= 128
    ensures UnsignedVal(buf[..length]) * Pow(256, 8 - length) == s * 2048
  {
    var rest: nat := s;
    length := 0;
    var i := 0;
    while i != 8
      invariant 0 <= length <= i <= 8 && rest < TWO53
      invariant s * Pow(256, i) == UnsignedVal(buf[..i]) * TWO53 + rest
      invariant UnsignedVal(buf[..i]) == UnsignedVal(buf[..length]) * Pow(256, i - length)
      invariant length > 0 ==> buf[length - 1] != 0
      invariant i == 0 ==> rest == s
      invariant i > 0 ==> buf[0] >= 128 && length > 0
    {
      ghost var was, kept := buf[..i], buf[..length];
      TopByte(rest);
      rest := rest * 256;
      var value := rest / TWO53;
      rest := rest - value * TWO53;
      buf[i] := value;
      assert buf[..i + 1] == was + [value];
      ExportStep(s, i, was, value, rest);
      if value != 0 {
        length := i + 1;
      } else {
        assert buf[..length] == kept;
        TrailingZero(was, kept, i - length);
      }
      i := i + 1;
    }
    assert Pow(256, 8) == TWO53 * 2048;
  }

  lemma TopByte(rest: nat)
    requires rest < TWO53
    ensures rest * 256 / TWO53 < 256
    ensures 2 * rest >= TWO53 ==> rest * 256 / TWO53 >= 128
  {
  }

  lemma ExportStep(s: nat, i: nat, was: seq<octet>, value: octet, rest: nat)
    requires s * Pow(256, i) * 256 == (UnsignedVal(was) * TWO53) * 256 + value * TWO53 + rest
    ensures s * Pow(256, i + 1) == UnsignedVal(was + [value]) * TWO53 + rest
    ensures UnsignedVal(was + [value]) == UnsignedVal(was + [value]) * Pow(256, 0)
  {
    ValSnoc(was, value, 256);
    assert s * (Pow(256, i) * 256) == s * Pow(256, i) * 256;
  }

  lemma TrailingZero(was: seq<octet>, kept: seq<octet>, n: nat)
    requires UnsignedVal(was) == UnsignedVal(kept) * Pow(256, n)
    ensures UnsignedVal(was + [0]) == UnsignedVal(kept) * Pow(256, n + 1)
  {
    ValSnoc(was, 0, 256);
    assert UnsignedVal(kept) * (Pow(256, n) * 256) == UnsignedVal(kept) * Pow(256, n) * 256;
  }

  // ---- normalising the mantissa ----

  /** One octet of the string shifted right by the bits of p, the bits of its left
      neighbour coming in at the top. */
  function ShiftedOctet(s: seq<octet>, p: nat, q: nat, i: nat): (o: octet)
    requires p * q == 256 && p > 0 && i < |s|
  {
    var low := if i == 0 then 0 else Rem(s[i - 1], p);
    ShiftedFits(s[i], low, p, q);
    low * q + Quot(s[i], p)
  }

  lemma ShiftedFits(d: octet, low: nat, p: nat, q: nat)
    requires p * q == 256 && low < p
    ensures 0 <= low * q + Quot(d, p) < 256
  {
    QuotLess(d, p, q);
    MulLess(low, p, q);
    assert p * q == q * p;
  }

  /** Shifting the octets shifts the number; the bits of the last octet fall out. */
  lemma {:induction false} ShiftVal(s: seq<octet>, r: seq<octet>, p: nat, q: nat)
    requires s != [] && |r| == |s| && p * q == 256 && p > 0
    requires forall i :: 0 <= i < |s| ==> r[i] == ShiftedOctet(s, p, q, i)
    ensures UnsignedVal(s) == UnsignedVal(r) * p + Rem(s[|s| - 1], p)
  {
    var n := |s| - 1;
    var d, low := s[n], if n == 0 then 0 else Rem(s[n - 1], p);
    assert s == s[..n] + [d] && r == r[..n] + [r[n]];
    ValSnoc(s[..n], d, 256);
    ValSnoc(r[..n], r[n], 256);
    if n > 0 {
      ShiftVal(s[..n], r[..n], p, q);
    }
    QuotRem(d, p);
    ShiftStep(UnsignedVal(s[..n]), UnsignedVal(r[..n]), low, d, p, q);
  }

  lemma ShiftStep(v: nat, w: nat, low: nat, d: octet, p: nat, q: nat)
    requires p * q == 256 && p > 0 && v == w * p + low
    ensures v * 256 + d == (w * 256 + (low * q + Quot(d, p))) * p + Rem(d, p)
  {
    QuotRem(d, p);
    var c := Quot(d, p);
    assert (w * 256 + (low * q + c)) * p == (w * 256) * p + (low * q) * p + c * p by {
      Spread(w * 256, low * q, c, p);
    }
    assert (low * q) * p == low * 256 by { Regroup(low, q, p); }
    assert (w * 256) * p == (w * p) * 256 by { Regroup(w, 256, p); Regroup(w, p, 256); }
  }

  lemma Spread(a: nat, b: nat, c: nat, p: nat)
    ensures (a + (b + c)) * p == a * p + b * p + c * p
  {
  }

  lemma Regroup(a: nat, b: nat, c: nat)
    ensures (a * b) * c == a * (b * c) == a * (c * b)
  {
  }

  lemma LowBit(v: nat, bits: nat)
    requires Rem(v, Pow2(bits)) == 0 && Rem(Quot(v, Pow2(bits)), 2) == 0
    ensures Rem(v, Pow2(bits + 1)) == 0
  {
    hide Quot, Rem, Pow2;
    var p := Pow2(bits);
    var h := Quot(Quot(v, p), 2);
    QuotRem(v, p);
    QuotRem(Quot(v, p), 2);
    DoublePow(bits + 1);
    Regroup(h, 2, p);
    QuotUnique(h, 0, p * 2);
  }

  lemma LowBitsOfOctet(v: octet, bits: nat)
    requires v != 0 && bits <= 8 && Rem(v, Pow2(bits)) == 0
    ensures bits < 8
  {
    BlockBases();
    RemSmall(v, 256);
  }

  lemma ShiftedIsOdd(s: seq<octet>, bits: nat, p: nat, q: nat)
    requires s != [] && bits < 8 && p * q == 256 && p > 0 && q == Pow2(8 - bits)
    requires Rem(Quot(s[|s| - 1], p), 2) == 1
    ensures ShiftedOctet(s, p, q, |s| - 1) % 2 == 1
  {
    var low := if |s| == 1 then 0 else Rem(s[|s| - 2], p);
    var h := Pow2(8 - bits - 1);
    DoublePow(8 - bits);
    Regroup(low, h, 2);
    EvenPlusOdd(low * h, Quot(s[|s| - 1], p));
  }

  lemma EvenPlusOdd(a: nat, b: nat)
    requires b % 2 == 1
    ensures (a * 2 + b) % 2 == 1
  {
  }

  lemma TopSurvives(d: octet, bits: nat)
    requires d >= 128 && bits < 8
    ensures Quot(d, Pow2(bits)) != 0
  {
    BlockBases();
    PowMono(2, bits, 7);
    QuotLess(d, Pow2(bits), 1);
  }

  method LeastSignificantBit(last: octet) returns (bits: nat)
    requires last != 0
    ensures bits < 8 && Rem(last, Pow2(bits)) == 0 && Rem(Quot(last, Pow2(bits)), 2) == 1
  {
    bits := 0;
    while bits != 8 && Rem(Quot(last, Pow2(bits)), 2) == 0
      invariant 0 <= bits <= 8
      invariant Rem(last, Pow2(bits)) == 0
    {
      LowBit(last, bits);
      bits := bits + 1;
    }
    LowBitsOfOctet(last, bits);
  }

  method ShiftRight(buffer: array<octet>, size: nat, p: nat, q: nat)
    requires 1 <= size <= buffer.Length && p * q == 256 && p > 0
    modifies buffer
    ensures forall j :: 0 <= j < size ==> buffer[j] == ShiftedOctet(old(buffer[..size]), p, q, j)
    ensures forall j :: size <= j < buffer.Length ==> buffer[j] == old(buffer[j])
  {
    ghost var was := buffer[..size];
    var i := size - 1;
    while i != 0
      invariant 0 <= i < size
      invariant forall j :: 0 <= j <= i ==> buffer[j] == was[j]
      invariant forall j :: i < j < size ==> buffer[j] == ShiftedOctet(was, p, q, j)
      invariant forall j :: size <= j < buffer.Length ==> buffer[j] == old(buffer[j])
    {
      ShiftedFits(buffer[i], Rem(buffer[i - 1], p), p, q);
      buffer[i] := Rem(buffer[i - 1], p) * q + Quot(buffer[i], p);
      i := i - 1;
    }
    ShiftedFits(buffer[0], 0, p, q);
    buffer[0] := Quot(buffer[0], p);
  }

  /** Shift the mantissa right until it is odd; at most seven bits. */
  method NormaliseMantissa(buffer: array<octet>, size: nat) returns (bits: nat)
    requires 1 <= size <= buffer.Length && buffer[size - 1] != 0
    modifies buffer
    ensures bits < 8
    ensures UnsignedVal(old(buffer[..size])) == UnsignedVal(buffer[..size]) * Pow2(bits)
    ensures buffer[size - 1] % 2 == 1
    ensures old(buffer[0]) >= 128 ==> buffer[0] != 0
    ensures forall i :: size <= i < buffer.Length ==> buffer[i] == old(buffer[i])
  {
    bits := LeastSignificantBit(buffer[size - 1]);
    assert Pow2(0) == 1;
    if bits != 0 {
      ghost var was := buffer[..size];
      var p, q := Pow2(bits), Pow2(8 - bits);
      ComplementaryPowers(bits);
      ShiftRight(buffer, size, p, q);
      ShiftVal(was, buffer[..size], p, q);
      ShiftedIsOdd(was, bits, p, q);
      TopShifted(was, bits, p, q);
    }
  }

  lemma ComplementaryPowers(bits: nat)
    requires bits <= 8
    ensures Pow2(bits) * Pow2(8 - bits) == 256
  {
    PowAdd(2, bits, 8 - bits);
    BlockBases();
  }

  lemma TopShifted(s: seq<octet>, bits: nat, p: nat, q: nat)
    requires s != [] && bits < 8 && p == Pow2(bits) && p * q == 256
    ensures s[0] >= 128 ==> ShiftedOctet(s, p, q, 0) != 0
  {
    if s[0] >= 128 {
      TopSurvives(s[0], bits);
    }
  }

  // ---- assembling the content octets ----

  lemma OddEnd(s: seq<octet>)
    requires s != []
    ensures UnsignedVal(s) % 2 == s[|s| - 1] % 2
  {
    assert s == s[..|s| - 1] + [s[|s| - 1]];
    ValSnoc(s[..|s| - 1], s[|s| - 1], 256);
  }

  /** Octets with a non-zero first octet are the shortest for their value. */
  lemma FullOctets(s: seq<octet>)
    requires s != [] && s[0] != 0
    ensures s == Mantissa(UnsignedVal(s))
  {
    var v := UnsignedVal(s);
    ValBound(s, 256);
    ValHead(s);
    MulLess(0, s[0], Pow(256, |s| - 1));
    MinDigitsIsLeast(v, 256, |s|);
    if |s| > 1 {
      MinDigitsIsLeast(v, 256, |s| - 1);
    }
    DigitsVal(s, 256);
  }

  /** What the exported and shifted octets mean for the significand. */
  lemma NormalisedIsOddPart(s: nat, v: nat, m: nat, bits: nat, spare: nat)
    requires s > 0 && m % 2 == 1
    requires v * Pow(256, spare) == s * 2048 && v == m * Pow2(bits)
    ensures OddPart(s) == m && Twos(s) + 11 == bits + 8 * spare
  {
    OctetPow(spare);
    PowAdd(2, bits, spare * 8);
    Regroup(m, Pow2(bits), Pow2(spare * 8));
    TwosOfProduct(m, bits + spare * 8, s * 2048);
    OddTimesTwos(s);
    PowAdd(2, Twos(s), 11);
    assert Pow(2, 11) == 2048;
    Regroup(OddPart(s), Pow2(Twos(s)), 2048);
    TwosOfProduct(OddPart(s), Twos(s) + 11, s * 2048);
  }

  /** Odd mantissa octets and the exponent that goes with them. */
  method NormalForm(r: Real) returns (mantissa: seq<octet>, exponent: int)
    requires r.Normal? && IsDouble(r)
    ensures |mantissa| <= 8 && mantissa == Mantissa(OddPart(r.significand))
    ensures exponent == r.exponent + Twos(r.significand)
  {
    var mantissaBuf := new octet[8];
    var manLength := ExportMantissa(r.significand, mantissaBuf);
    ghost var exported := UnsignedVal(mantissaBuf[..manLength]);
    var bits := NormaliseMantissa(mantissaBuf, manLength);
    mantissa := mantissaBuf[..manLength];
    exponent := r.exponent + 53 - (manLength * 8 - bits);
    OddEnd(mantissa);
    FullOctets(mantissa);
    NormalisedIsOddPart(r.significand, exported, UnsignedVal(mantissa), bits, 8 - manLength);
  }

  method EncodeNormalReal(r: Real, buf: array<octet>) returns (length: nat)
    requires r.Normal? && IsDouble(r) && buf.Length >= 14
    modifies buf
    ensures length <= 14 && buf[..length] == RealOctets(r)
  {
    hide RealOctets, IntegerSize, IntegerOctets, Mantissa;
    var mantissa, exponent := NormalForm(r);
    OctetsOfNormal(r);
    ExponentFits(exponent);
    var exponentBuf := new octet[5];
    var ok, expLength := EncodeInteger(exponent, 32, exponentBuf, 4);
    length := Assemble(r.negative, exponentBuf[..expLength], mantissa, buf);
  }

  method Assemble(negative: bool, exponent: seq<octet>, mantissa: seq<octet>, buf: array<octet>) returns (length: nat)
    requires 1 <= |exponent| <= 4 && |mantissa| <= 8 && buf.Length >= 14
    modifies buf
    ensures length <= 14
    ensures |exponent| <= 3 ==>
      buf[..length] == [0x80 + (if negative then 0x40 else 0) + |exponent| - 1] + exponent + mantissa
  {
    var expLength, manLength := |exponent|, |mantissa|;
    length := 1 + manLength + expLength;
    var sign := if negative then 0x40 else 0;
    var at := 1;
    if expLength > 3 {
      length := length + 1;
      buf[0], buf[1] := 0x80 + sign + 3, expLength;
      at := 2;
    } else {
      buf[0] := 0x80 + sign + expLength - 1;
    }
    forall i | 0 <= i < expLength { buf[at + i] := exponent[i]; }
    forall i | 0 <= i < manLength { buf[at + expLength + i] := mantissa[i]; }
    if expLength <= 3 {
      assert buf[..length] == [buf[0]] + exponent + mantissa;
    }
  }

  lemma ExponentFits(e: int)
    requires IntegerSize(e) <= 2
    ensures if e < 0 then SignedFits(e, 4) else e < Pow(256, 4)
  {
    IntegerBound(e, 4);
  }

  /** Content octets of any double; a subnormal one is refused. */
  method EncodeReal(r: Real, buf: array<octet>) returns (ok: bool, length: nat)
    requires IsDouble(r) && !r.Other? && buf.Length >= 14
    modifies buf
    ensures ok <==> Encodable(r)
    ensures ok ==> length <= 14 && buf[..length] == RealOctets(r)
  {
    ok, length := true, 1;
    match r
    case NaN => buf[0] := 0x42;
    case Infinite(negative) => buf[0] := if negative then 0x41 else 0x40;
    case Zero(negative) =>
      if negative {
        buf[0] := 0x43;
      } else {
        length := 0;
      }
    case Subnormal => ok := false;
    case Normal(_, _, _) => length := EncodeNormalReal(r, buf);
  }

  method ReadReal(s: seq<octet>) returns (r: RealResult)
    ensures r == DecodeReal(s)
  {
    if s == [] {
      return Exact(Zero(false));
    }
    if |s| == 1 {
      if s[0] == 0x42 {
        return Exact(NaN);
      } else if s[0] == 0x40 {
        return Exact(Infinite(false));
      } else if s[0] == 0x41 {
        return Exact(Infinite(true));
      } else if s[0] == 0x43 {
        return Exact(Zero(true));
      }
      return Refused;
    }
    r := ReadNormalReal(s);
  }

  method ReadNormalReal(s: seq<octet>) returns (r: RealResult)
    requires |s| > 1
    ensures r == DecodeNormal(s)
  {
    hide IntegerRead, Scale;
    if s[0] < 0x80 {
      return Refused;
    }
    var sign := s[0] / 0x40 % 2 == 1;
    if s[0] / 0x10 % 4 != 0 {
      return Refused;
    }
    if s[0] / 4 % 4 != 0 {
      return Refused;
    }
    var at: nat, size: nat := 1, s[0] % 4 + 1;
    if s[0] % 4 == 3 {
      at, size := 2, s[1];
    }
    if |s| < at + size + 1 {
      return Refused;
    }
    var exponent := ReadInteger(s[at..], size, 4, true, 4);
    at := at + size;
    var mantissa: nat := 0;
    var from := at;
    while at != |s|
      invariant from <= at <= |s|
      invariant mantissa == UnsignedVal(s[from..at])
    {
      assert s[from..at + 1] == s[from..at] + [s[at]];
      ValSnoc(s[from..at], s[at], 256);
      mantissa := 256 * mantissa + s[at];
      at := at + 1;
    }
    assert s[from..at] == s[from..];
    var double := Scale(sign, mantissa, exponent);
    r := Exact(if double.Some? then double.value else Other(s));
  }
}
