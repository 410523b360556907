/** The buffer-filling loops of securepath/serialisation/codec/asn_der/util.hpp,
    each proved against the specification functions of Octets and AsnInteger. */
module AsnUtil {
  import opened Octets
  import opened AsnInteger

  predicate BitSet(v: nat, bit: nat) {
    Rem(Quot(v, Pow2(bit)), 2) == 1
  }

  lemma BlockBases()
    ensures Pow2(0) == 1 && Pow2(7) == 128 && Pow2(8) == 256
  {
  }

  /** Division as C++ does it, toward zero. */
  function TruncDiv(a: int, b: nat): int
    requires b > 0
  {
    if a >= 0 then a / b else -((-a) / b)
  }

  lemma BitClear(v: nat, bit: nat)
    requires v < Pow2(bit + 1)
    ensures BitSet(v, bit) <==> v >= Pow2(bit)
  {
    QuotLess(v, Pow2(bit), 1);
    QuotLess(v, Pow2(bit), 2);
  }

  /** A value whose highest bit lies in block q needs q + 1 digits of base 2^block. */
  lemma DigitsOfBit(v: nat, bit: nat, block: nat, q: nat)
    requires block >= 1 && Pow2(bit) <= v < Pow2(bit + 1)
    requires block * q <= bit < block * (q + 1)
    ensures Pow2(block) >= 2 && MinDigits(v, Pow2(block)) == q + 1
  {
    PowMono(2, 1, block);
    PowMul(2, block, q + 1);
    PowMono(2, bit + 1, block * (q + 1));
    BlockBase(block);
    MinDigitsIsLeast(v, Pow2(block), q + 1);
    if q >= 1 {
      PowMul(2, block, q);
      PowMono(2, block * q, bit);
      MinDigitsIsLeast(v, Pow2(block), q);
    }
  }

  lemma BlockBase(block: nat)
    requires block >= 1
    ensures Pow2(block) >= 2
  {
    assert Pow2(block) == Pow2(block - 1) * 2;
  }

  /** The n low bits. */
  function LowBits(v: nat, n: nat): (r: nat)
    ensures r < Pow2(n)
  {
    if v < Pow2(n) then v else Rem(v, Pow2(n))
  }

  lemma BitOfLow(v: nat, n: nat, bit: nat)
    requires bit < n
    ensures BitSet(v, bit) <==> BitSet(LowBits(v, n), bit)
  {
    hide Quot, Rem, Pow;
    if v >= Pow2(n) {
      var q, low, p, step := Quot(v, Pow2(n)), Rem(v, Pow2(n)), Pow2(bit), Pow2(n - bit - 1);
      QuotRem(v, Pow2(n));
      QuotRem(low, p);
      PowAdd(2, bit, n - bit);
      PowStep(2, n - bit - 1);
      var k := Quot(low, p);
      HighPart(q, p, step, k, Rem(low, p));
      QuotUnique(2 * (q * step) + k, Rem(low, p), p);
      QuotRem(k, 2);
      QuotUnique(q * step + Quot(k, 2), Rem(k, 2), 2);
    }
  }

  lemma HighPart(q: nat, p: nat, step: nat, k: nat, r: nat)
    ensures q * (p * (step * 2)) + (k * p + r) == (2 * (q * step) + k) * p + r
  {
    assert q * (p * (step * 2)) == (2 * (q * step)) * p;
  }

  lemma ZeroHasOneDigit(b: nat)
    requires b >= 2
    ensures MinDigits(0, b) == 1
  {
  }

  lemma TopOfLow(v: nat, n: nat, bit: nat)
    requires bit < n && LowBits(v, n) < Pow2(bit + 1)
    ensures BitSet(v, bit) <==> LowBits(v, n) >= Pow2(bit)
  {
    BitOfLow(v, n, bit);
    BitClear(LowBits(v, n), bit);
  }

  /** One less than the number of block-bit digits of the value, as far as the hint goes;
      with the sign considered, of its double. */
  method HighestBitBlock(value: nat, treatAsSigned: bool, sizeHint: nat, block: nat) returns (r: nat)
    requires block == 7 || block == 8
    ensures var low := LowBits(value, sizeHint * 8);
      r + 1 == MinDigits(if treatAsSigned then 2 * low else low, Pow2(block))
  {
    hide LowBits, Pow, MinDigits, Quot, Rem;
    ghost var low := LowBits(value, sizeHint * 8);
    var bit: int := sizeHint * 8 - 1;
    while bit >= 0 && !BitSet(value, bit)
      invariant -1 <= bit < sizeHint * 8
      invariant low < Pow2(bit + 1)
    {
      TopOfLow(value, sizeHint * 8, bit);
      bit := bit - 1;
    }
    BlockBases();
    if bit >= 0 {
      TopOfLow(value, sizeHint * 8, bit);
      BlocksOfBit(low, bit, block);
    } else {
      ZeroHasOneDigit(Pow2(block));
    }
    if treatAsSigned && (bit + 1) % block == 0 {
      bit := bit + 1;
    }
    r := TruncDiv(bit, block);
  }

  /** The division that turns the highest bit into a block, without and with the sign. */
  lemma BlocksOfBit(low: nat, bit: nat, block: nat)
    requires block == 7 || block == 8
    requires Pow2(bit) <= low < Pow2(bit + 1)
    ensures bit / block + 1 == MinDigits(low, Pow2(block))
    ensures (if (bit + 1) % block == 0 then (bit + 1) / block else bit / block) + 1 == MinDigits(2 * low, Pow2(block))
  {
    hide Pow, MinDigits;
    PowStep(2, bit);
    PowStep(2, bit + 1);
    BlockOf(bit, block);
    BlockOf(bit + 1, block);
    DigitsOfBit(low, bit, block, bit / block);
    DigitsOfBit(2 * low, bit + 1, block, (bit + 1) / block);
  }

  lemma BlockOf(bit: nat, block: nat)
    requires block == 7 || block == 8
    ensures block * (bit / block) <= bit < block * (bit / block + 1)
    ensures (bit + 1) / block == if (bit + 1) % block == 0 then bit / block + 1 else bit / block
  {
    if block == 7 {
      assert bit == 7 * (bit / 7) + bit % 7;
    } else {
      assert bit == 8 * (bit / 8) + bit % 8;
    }
  }

  /** Shift and mask; positions at or past the width of the type give 0. */
  function BitsFromPosition(value: nat, width: nat, pos: nat, block: nat): nat {
    if pos < width then Rem(Quot(value, Pow2(pos)), Pow2(block)) else 0
  }

  lemma BitsFromPositionIsDigit(value: nat, width: nat, n: nat, block: nat, i: nat)
    requires i < n && value < Pow2(width)
    ensures BitsFromPosition(value, width, (n - 1 - i) * block, block) == Digits(value, n, Pow2(block))[i]
  {
    hide Digits, Pow, Quot, Rem, BitsFromPosition;
    DigitAt(value, n, Pow2(block), i);
    Commute(n - 1 - i, block);
    BitsAt(value, width, n - 1 - i, block, block * (n - 1 - i));
  }

  lemma Commute(a: nat, b: nat)
    ensures a * b == b * a
  {
  }

  lemma BitsAt(value: nat, width: nat, k: nat, block: nat, pos: nat)
    requires value < Pow2(width) && pos == block * k
    ensures BitsFromPosition(value, width, pos, block) == Rem(Quot(value, Pow(Pow2(block), k)), Pow2(block))
  {
    hide Pow, Quot, Rem;
    PowMul(2, block, k);
    if pos >= width {
      PowMono(2, width, pos);
      QuotUnique(0, value, Pow2(pos));
      QuotUnique(0, 0, Pow2(block));
    }
  }

  /** Fill the buffer with the shortest digit string; the mask is or-ed to every digit. */
  method EncodeToOctets(value: nat, width: nat, buf: array<octet>, sizeHint: nat,
                        treatAsSigned: bool, block: nat, mask: octet) returns (ok: bool, length: nat)
    requires (block == 8 && mask == 0) || (block == 7 && mask == 128)
    requires value < Pow2(sizeHint * 8) && value < Pow2(width)
    modifies buf
    ensures length == MinDigits(if treatAsSigned then 2 * value else value, Pow2(block))
    ensures ok <==> length <= buf.Length
    ensures !ok ==> buf[..] == old(buf[..])
    ensures ok ==> forall i :: 0 <= i < length ==> buf[i] == Digits(value, length, Pow2(block))[i] + mask
    ensures ok ==> forall i :: length <= i < buf.Length ==> buf[i] == old(buf[i])
  {
    var top := HighestBitBlock(value, treatAsSigned, sizeHint, block);
    length := top + 1;
    ok := length <= buf.Length;
    if ok {
      BlockBases();
      ghost var digits := Digits(value, length, Pow2(block));
      var i := 0;
      while i != length
        invariant 0 <= i <= length
        invariant forall j :: 0 <= j < i ==> buf[j] == digits[j] + mask
        invariant forall j :: i <= j < buf.Length ==> buf[j] == old(buf[j])
      {
        BitsFromPositionIsDigit(value, width, length, block, i);
        buf[i] := BitsFromPosition(value, width, (length - i - 1) * block, block) + mask;
        i := i + 1;
      }
    }
  }

  /** The accumulating loop in 64 bits. */
  method DecodeFromOctets(b: seq<octet>) returns (r: nat)
    ensures r == Wrap64(UnsignedVal(b))
  {
    r := 0;
    if |b| > 0 {
      r := b[0];
      assert b[..1] == [b[0]] && [b[0]][..0] == [];
      assert Val(b[..1], 256) == b[0];
      var i := 1;
      while i != |b|
        invariant 1 <= i <= |b|
        invariant r == Wrap64(UnsignedVal(b[..i]))
      {
        assert b[..i + 1][..i] == b[..i];
        ShiftIn(UnsignedVal(b[..i]), b[i]);
        r := Wrap64(r * 256 + b[i]);
        i := i + 1;
      }
      assert b[..|b|] == b;
    }
  }

  lemma ShiftIn(v: nat, d: octet)
    ensures Wrap64(Wrap64(v) * 256 + d) == Wrap64(v * 256 + d)
  {
    if v >= TWO64 {
      var q, r := v / TWO64, v % TWO64;
      WholeTurns(256 * q, r * 256 + d);
      assert v * 256 + d == TWO64 * (256 * q) + (r * 256 + d);
    }
  }

  lemma WholeTurns(k: nat, a: nat)
    ensures Wrap64(TWO64 * k + a) == Wrap64(a)
  {
  }

  /** -(value + 1) complemented within its octets. */
  method TranslateNegative(value: int, sizeHint: nat) returns (r: nat)
    requires value < 0 && 1 <= sizeHint <= 8 && SignedFits(value, sizeHint)
    ensures r == Pow(256, IntegerSize(value)) + value
  {
    var number: nat := -(value + 1);
    OctetPow(sizeHint);
    BlockBases();
    var top := HighestBitBlock(number, true, sizeHint, 8);
    var octets := top + 1;
    OctetPow(octets);
    IntegerBound(value, octets);
    XorOnes(number, octets * 8);
    r := Xor(number, Pow2(octets * 8) - 1);
  }

  lemma OctetPow(n: nat)
    ensures Pow2(n * 8) == Pow(256, n)
  {
    PowMul(2, 8, n);
    BlockBases();
    assert 8 * n == n * 8;
  }

  /** Write the content octets of an integer. `width` is the bit width of the type the
      value is held in, `sizeHint` the octets of the type being encoded. */
  method EncodeInteger(value: int, width: nat, buf: array<octet>, sizeHint: nat) returns (ok: bool, length: nat)
    requires 1 <= sizeHint <= 8 && sizeHint * 8 <= width <= 64
    requires if value < 0 then SignedFits(value, sizeHint) else value < Pow(256, sizeHint)
    modifies buf
    ensures length == IntegerSize(value)
    ensures ok <==> length <= buf.Length
    ensures ok ==> buf[..length] == IntegerOctets(value)
  {
    BlockBases();
    if value < 0 {
      var v := TranslateNegative(value, sizeHint);
      ComplementSize(value, sizeHint);
      ok, length := EncodeToOctets(v, 64, buf, sizeHint, false, 8, 0);
    } else {
      WidthCovers(value, sizeHint, width);
      ok, length := EncodeToOctets(value, width, buf, sizeHint, true, 8, 0);
    }
    if ok {
      IntegerDigits(value);
      assert forall i :: 0 <= i < length ==> buf[..length][i] == IntegerOctets(value)[i];
    }
  }

  lemma WidthCovers(v: nat, n: nat, width: nat)
    requires v < Pow(256, n) && n * 8 <= width
    ensures v < Pow2(n * 8) && v < Pow2(width)
  {
    OctetPow(n);
    PowMono(2, n * 8, width);
  }

  lemma IntegerDigits(value: int)
    ensures var n := IntegerSize(value);
            var w := if value >= 0 then value else Pow(256, n) + value;
            w >= 0 && IntegerOctets(value) == Digits(w, n, 256)
  {
    IntegerBound(value, IntegerSize(value));
  }

  /** The complemented number has its top bit set, so it fills its octets. */
  lemma ComplementSize(value: int, sizeHint: nat)
    requires value < 0 && SignedFits(value, sizeHint) && 1 <= sizeHint <= 8
    ensures var n := IntegerSize(value);
            var w := Pow(256, n) + value;
            0 <= w < Pow2(sizeHint * 8) && w < Pow2(64) && MinDigits(w, 256) == n
  {
    var n := IntegerSize(value);
    IntegerBound(value, n);
    IntegerBound(value, sizeHint);
    PowMono(256, n, sizeHint);
    WidthCovers(Pow(256, n) + value, sizeHint, 64);
    TopDigits(Pow(256, n) + value, n);
  }

  lemma TopDigits(v: nat, n: nat)
    requires n >= 1 && Pow(256, n) <= 2 * v < 2 * Pow(256, n)
    ensures MinDigits(v, 256) == n
  {
    assert Pow(256, n) == Pow(256, n - 1) * 256;
    MinDigitsIsLeast(v, 256, n);
    if n > 1 {
      MinDigitsIsLeast(v, 256, n - 1);
    }
  }

  /** x modulo m; next to the range no division is needed. */
  function Residue(x: int, m: nat): (r: nat)
    requires m > 0
    ensures r < m
  {
    if 0 <= x < m then x else if 0 <= x + m < m then x + m else x % m
  }

  /** Conversion to an integer type of `width` octets. */
  function ToType(x: int, isSigned: bool, width: nat): int {
    var u := Residue(x, Pow(256, width));
    if isSigned && 2 * u >= Pow(256, width) then u - Pow(256, width) else u
  }

  /** decode_integer for any octets: the sign comes from the first octet, which is looked
      at even if none are to be read, and what does not fit the type is cut. */
  function IntegerRead(b: seq<octet>, s: nat, sizeHint: nat, isSigned: bool, width: nat): int
    requires b != [] && s <= |b|
  {
    if b[0] >= 128 then
      var value := Wrap64(UnsignedVal(b[..s]));
      var mask := Pow(256, MinDigits(LowBits(value, sizeHint * 8), 256)) - 1;
      ToType(-1 - Xor(value, mask), isSigned, width)
    else ToType(UnsignedVal(b[..s]), isSigned, width)
  }

  /** decode_integer; `width` is that of the type in octets. */
  method ReadInteger(b: seq<octet>, s: nat, sizeHint: nat, isSigned: bool, width: nat) returns (r: int)
    requires b != [] && s <= |b| && 1 <= sizeHint <= 8 && 1 <= width <= 8
    ensures r == IntegerRead(b, s, sizeHint, isSigned, width)
  {
    var value := DecodeFromOctets(b[..s]);
    if b[0] >= 128 {
      BlockBases();
      var top := HighestBitBlock(value, false, sizeHint, 8);
      var octets := top + 1;
      OctetPow(octets);
      value := Xor(value, Pow2(octets * 8) - 1);
      r := ToType(-1 - (value as int), isSigned, width);
    } else {
      CutTwice(UnsignedVal(b[..s]), isSigned, width);
      r := ToType(value, isSigned, width);
    }
  }

  /** Cutting to 64 bits first changes nothing for a type of at most 64. */
  lemma CutTwice(v: nat, isSigned: bool, width: nat)
    requires 1 <= width <= 8
    ensures ToType(Wrap64(v), isSigned, width) == ToType(v, isSigned, width)
  {
    NarrowCast(v, width);
    ResidueOfNat(v, Pow(256, width));
    ResidueOfNat(Wrap64(v), Pow(256, width));
  }

  lemma ResidueOfNat(v: nat, m: nat)
    requires m > 0
    ensures Residue(v, m) == Rem(v, m)
  {
    if v < m {
      QuotUnique(0, v, m);
    }
  }

  /** A value in the type's range stays what it is. */
  lemma ToTypeFits(x: int, width: nat)
    requires SignedFits(x, width)
    ensures ToType(x, true, width) == x
  {
  }

  /** Octets that fit the hint and the type are read as two's complement. */
  lemma ReadFits(b: seq<octet>, s: nat, sizeHint: nat, width: nat)
    requires b != [] && 0 < s <= |b| && s <= sizeHint <= width <= 8
    ensures IntegerRead(b, s, sizeHint, true, width) == TwosComplement(b[..s])
  {
    var o := b[..s];
    hide Pow, Val, MinDigits, Xor;
    TwosComplementRange(o);
    IntegerBound(TwosComplement(o), s);
    IntegerBound(TwosComplement(o), width);
    ToTypeFits(TwosComplement(o), width);
    if b[0] >= 128 {
      NegativeFits(o, sizeHint);
      OctetPow(s);
    }
  }

  /** Of more octets than the type holds, those of a number that is not negative, the low
      ones count. */
  lemma LongIntegerIsCut(b: seq<octet>, s: nat, sizeHint: nat, width: nat)
    requires b != [] && b[0] < 128 && 1 <= width <= 8 && width <= s <= |b|
    ensures IntegerRead(b, s, sizeHint, true, width) == TwosComplement(b[s - width..s])
  {
    var high, low := b[..s - width], b[s - width..s];
    assert b[..s] == high + low;
    ValConcat(high, low, 256);
    ValBound(high, 256);
    ValBound(low, 256);
    TopBit(low);
    ResidueOfNat(UnsignedVal(b[..s]), Pow(256, width));
    QuotUnique(UnsignedVal(high), UnsignedVal(low), Pow(256, width));
  }

  /** No octets read as 0, or as -256 when a negative octet happens to follow. */
  lemma NoOctetsRead(b: seq<octet>)
    requires b != []
    ensures IntegerRead(b, 0, 4, true, 4) == if b[0] >= 128 then -256 else 0
  {
    assert b[..0] == [];
    assert MinDigits(0, 256) == 1 && Pow(256, 1) == 256;
    XorOnes(0, 8);
    BlockBases();
    assert Pow(256, 4) == 0x1_0000_0000;
  }

  lemma NegativeFits(b: seq<octet>, sizeHint: nat)
    requires b != [] && b[0] >= 128 && |b| <= sizeHint <= 8
    ensures Wrap64(UnsignedVal(b)) == UnsignedVal(b) < Pow2(sizeHint * 8)
    ensures MinDigits(UnsignedVal(b), 256) == |b|
    ensures Xor(UnsignedVal(b), Pow2(|b| * 8) - 1) == Pow(256, |b|) - 1 - UnsignedVal(b)
  {
    var v := UnsignedVal(b);
    ValBound(b, 256);
    TopBit(b);
    TopDigits(v, |b|);
    ComplementOf(v, |b|);
    PowMono(256, |b|, sizeHint);
    WidthCovers(v, sizeHint, 64);
    FitsTwo64(v);
  }

  lemma ComplementOf(v: nat, n: nat)
    requires v < Pow(256, n)
    ensures Xor(v, Pow2(n * 8) - 1) == Pow(256, n) - 1 - v
  {
    OctetPow(n);
    XorOnes(v, n * 8);
  }

  lemma FitsTwo64(v: nat)
    requires v < Pow2(64)
    ensures v < TWO64
  {
    OctetPow(8);
    assert Pow(256, 8) == TWO64;
  }

  /** decode_integer of the decoder, from content octets to a typed value. */
  method DecodeTyped(b: seq<octet>, isSigned: bool, sizeHint: nat) returns (r: Decoded<int>)
    requires 1 <= sizeHint <= 8
    ensures r == DecodeInteger(b, isSigned, sizeHint)
  {
    if |b| > sizeHint + (if isSigned then 0 else 1) || |b| == 0 {
      return Bad;
    }
    if b[0] >= 128 && !isSigned {
      return Bad;
    }
    assert b[..|b|] == b;
    var v := ReadInteger(b, |b|, sizeHint, isSigned, 8);
    if isSigned {
      ReadFits(b, |b|, sizeHint, 8);
      r := Value(v);
    } else {
      NarrowCast(UnsignedVal(b), sizeHint);
      assert Pow(256, 8) == TWO64;
      r := Value(Rem(v, Pow(256, sizeHint)));
    }
  }

  /** Cutting to 64 bits first does not change the low octets. */
  lemma NarrowCast(v: nat, w: nat)
    requires w <= 8
    ensures Rem(Wrap64(v), Pow(256, w)) == Rem(v, Pow(256, w))
  {
    PowAdd(256, w, 8 - w);
    assert Pow(256, 8) == TWO64;
    RemOfRem(v, Pow(256, w), Pow(256, 8 - w));
  }

  lemma RemOfRem(v: nat, p: nat, k: nat)
    requires p > 0 && p * k == TWO64
    ensures Rem(Wrap64(v), p) == Rem(v, p)
  {
    var low := v % TWO64;
    var q, h := Quot(low, p), v / TWO64;
    QuotRem(low, p);
    assert v == h * (p * k) + low;
    Factor(h, p, k, q);
    QuotUnique(h * k + q, Rem(low, p), p);
  }

  lemma Factor(h: nat, p: nat, k: nat, q: nat)
    ensures h * (p * k) + q * p == (h * k + q) * p
  {
  }
}
