/** Two's-complement integers of securepath/serialisation/codec/asn_der/util.hpp.
    The loops are methods over the caller's buffer; `IntegerOctets` and
    `TwosComplement` say what they compute, and the lemmas say that the pair is the
    canonical form of X.690 section 8.3.2. */
module AsnInteger {
  import opened Octets

  /** The least n >= 1 with v < b^n. */
  function MinDigits(v: nat, b: nat): (n: nat)
    requires b >= 2
    ensures n >= 1
    decreases v
  {
    if v < b then 1 else
      QuotSmaller(v, b);
      1 + MinDigits(Quot(v, b), b)
  }

  lemma QuotSmaller(v: nat, b: nat)
    requires b >= 2 && v >= b
    ensures Quot(v, b) < v
  {
    assert v * (b - 2) >= 0;
    QuotLess(v, b, v);
  }

  lemma {:induction false} MinDigitsIsLeast(v: nat, b: nat, n: nat)
    requires b >= 2 && n >= 1
    ensures v < Pow(b, n) <==> MinDigits(v, b) <= n
    decreases n
  {
    assert Pow(b, 1) == b;
    if v >= b {
      QuotSmaller(v, b);
      if n == 1 {
      } else {
        QuotLess(v, b, Pow(b, n - 1));
        MinDigitsIsLeast(Quot(v, b), b, n - 1);
      }
    } else {
      PowMono(b, 1, n);
    }
  }

  function Magnitude(v: int): nat {
    if v >= 0 then v else -(v + 1)
  }

  /** Number of content octets of v. */
  function IntegerSize(v: int): (n: nat)
    ensures n >= 1
  {
    MinDigits(2 * Magnitude(v), 256)
  }

  /** Content octets of v. */
  function IntegerOctets(v: int): (s: seq<octet>)
    ensures |s| == IntegerSize(v)
  {
    var n := IntegerSize(v);
    IntegerBound(v, n);
    Digits(if v >= 0 then v else Pow(256, n) + v, n, 256)
  }

  /** The value X.690 section 8.3.3 gives to content octets. */
  function TwosComplement(s: seq<octet>): int
    requires s != []
  {
    if s[0] >= 128 then Val(s, 256) - Pow(256, |s|) else Val(s, 256)
  }

  /** X.690 section 8.3.2: the first nine bits are neither all zero nor all one. */
  predicate Shortest(s: seq<octet>) {
    |s| > 1 ==> !(s[0] == 0 && s[1] < 128) && !(s[0] == 255 && s[1] >= 128)
  }

  /** v is in the two's-complement range of n octets. */
  predicate SignedFits(v: int, n: nat) {
    0 <= 2 * v + Pow(256, n) && 2 * v < Pow(256, n)
  }

  lemma IntegerBound(v: int, n: nat)
    requires n >= 1
    ensures IntegerSize(v) <= n <==> SignedFits(v, n)
  {
    MinDigitsIsLeast(2 * Magnitude(v), 256, n);
    assert Pow(256, n) == Pow(256, n - 1) * 256;
  }

  lemma ValHead(s: seq<octet>)
    requires s != []
    ensures Val(s, 256) == s[0] * Pow(256, |s| - 1) + Val(s[1..], 256)
    ensures 0 <= Val(s[1..], 256) < Pow(256, |s| - 1)
  {
    assert s == [s[0]] + s[1..];
    ValConcat([s[0]], s[1..], 256);
    assert [s[0]][..0] == [];
    assert Val([s[0]], 256) == s[0];
    ValBound(s[1..], 256);
  }

  lemma TopBit(s: seq<octet>)
    requires s != []
    ensures s[0] >= 128 <==> 2 * Val(s, 256) >= Pow(256, |s|)
  {
    ValHead(s);
    var p := Pow(256, |s| - 1);
    assert Pow(256, |s|) == p * 256;
    if s[0] >= 128 {
      MulLess(127, s[0], p);
    } else {
      MulLess(s[0], 128, p);
    }
  }

  /** A string of n octets denotes v exactly when it is the n low octets of v. */
  lemma TwosComplementUnique(s: seq<octet>, v: int)
    requires s != [] && SignedFits(v, |s|)
    ensures TwosComplement(s) == v <==>
      s == Digits(if v >= 0 then v else Pow(256, |s|) + v, |s|, 256)
  {
    var w := if v >= 0 then v else Pow(256, |s|) + v;
    TopBit(s);
    ValBound(s, 256);
    assert 0 <= w < Pow(256, |s|);
    DigitsUnique(s, w, 256);
  }

  lemma TwosComplementRange(s: seq<octet>)
    requires s != []
    ensures SignedFits(TwosComplement(s), |s|)
  {
    TopBit(s);
    ValBound(s, 256);
  }

  /** Reading back the content octets gives the integer, for every integer. */
  lemma IntegerRoundTrip(v: int)
    ensures TwosComplement(IntegerOctets(v)) == v
  {
    hide Pow, Digits, Val, IntegerSize;
    var s := IntegerOctets(v);
    IntegerBound(v, |s|);
    TwosComplementUnique(s, v);
  }

  /** Section 8.3.2 characterises the encoder's output: a non-empty octet string is
      what the encoder writes for its value exactly when it obeys the nine-bit rule,
      and no string with that value is shorter. */
  lemma ShortestIsCanonical(s: seq<octet>)
    requires s != []
    ensures s == IntegerOctets(TwosComplement(s)) <==> Shortest(s)
    ensures |IntegerOctets(TwosComplement(s))| <= |s|
  {
    var v := TwosComplement(s);
    TwosComplementRange(s);
    IntegerBound(v, |s|);
    TwosComplementUnique(s, v);
    if |s| > 1 {
      IntegerBound(v, |s| - 1);
      ShortestRange(s);
    }
  }

  lemma ShortestRange(s: seq<octet>)
    requires |s| > 1
    ensures Shortest(s) <==>
      !SignedFits(TwosComplement(s), |s| - 1)
  {
    var t := s[1..];
    var p, q := Pow(256, |s| - 1), Pow(256, |s| - 2);
    assert p == q * 256 && Pow(256, |s|) == p * 256;
    ValHead(s);
    TopBit(t);
    ValBound(t, 256);
    if 0 < s[0] < 128 {
      MulLess(0, s[0], p);
    } else if 128 <= s[0] < 255 {
      MulLess(s[0], 255, p);
    }
  }

  lemma UnsignedSize(v: nat, w: nat)
    requires w >= 1 && v < Pow(256, w)
    ensures |IntegerOctets(v)| <= w + 1
    ensures |IntegerOctets(v)| == w + 1 <==> 2 * v >= Pow(256, w)
    ensures IntegerOctets(v)[0] < 128
  {
    assert Pow(256, w + 1) == Pow(256, w) * 256;
    IntegerBound(v, w);
    IntegerBound(v, w + 1);
    IntegerRoundTrip(v);
    TopBit(IntegerOctets(v));
    ValBound(IntegerOctets(v), 256);
  }

  // ---- decoding ----

  datatype Decoded<+T> = Value(value: T) | Bad

  /** What decode_integer accepts for an integer type of w octets, and the value it
      leaves in it. */
  function DecodeInteger(s: seq<octet>, isSigned: bool, w: nat): Decoded<int> {
    if |s| > w + (if isSigned then 0 else 1) || |s| == 0 then Bad
    else if s[0] >= 128 && !isSigned then Bad
    else if isSigned then Value(TwosComplement(s))
    else Value(Rem(UnsignedVal(s), Pow(256, w)))
  }

  function UnsignedVal(s: seq<octet>): nat {
    ValBound(s, 256);
    Val(s, 256)
  }

  predicate InType(v: int, isSigned: bool, w: nat) {
    if isSigned then SignedFits(v, w) else 0 <= v < Pow(256, w)
  }

  /** Every value of every signed and unsigned type of 1 to 8 octets survives, the
      nine-octet unsigned and the most negative values included. */
  lemma TypedIntegerRoundTrip(v: int, isSigned: bool, w: nat)
    requires 1 <= w <= 8 && InType(v, isSigned, w)
    ensures DecodeInteger(IntegerOctets(v), isSigned, w) == Value(v)
  {
    var s := IntegerOctets(v);
    IntegerRoundTrip(v);
    if isSigned {
      IntegerBound(v, w);
    } else {
      UnsignedSize(v, w);
      RemSmall(v, Pow(256, w));
    }
  }

  lemma RemSmall(v: nat, m: nat)
    requires v < m
    ensures Rem(v, m) == v
  {
    QuotUnique(0, v, m);
  }

  /** On foreign input an accepted unsigned integer keeps its value exactly when the
      value fits the type; a longer one is cut to its low octets. */
  lemma AcceptedUnsignedIsExact(s: seq<octet>, w: nat)
    requires w >= 1 && DecodeInteger(s, false, w).Value?
    ensures DecodeInteger(s, false, w).value == TwosComplement(s) <==> (|s| <= w || s[0] == 0)
  {
    ValHead(s);
    ValBound(s, 256);
    var v := UnsignedVal(s);
    if |s| <= w {
      PowMono(256, |s|, w);
      RemSmall(v, Pow(256, w));
    } else if s[0] == 0 {
      RemSmall(v, Pow(256, w));
    } else {
      MulLess(0, s[0], Pow(256, w));
    }
  }

  lemma OverlongUnsignedIsCut()
    ensures DecodeInteger([1, 5], false, 1) == Value(5)
    ensures TwosComplement([1, 5]) == 261
  {
    var s: seq<octet> := [1, 5];
    ValHead(s);
    assert s[1..] == [5];
    assert ([5])[..0] == [];
    assert Val([5], 256) == 5;
    assert Pow(256, 1) == 256;
  }
}
