/** Arithmetic under the codec: powers, digits in a base, and the bit operations
    of securepath/serialisation/codec/asn_der/util.hpp written on integers. */
module Octets {
  type octet = x: int | 0 <= x < 256

  function Pow(b: nat, n: nat): (r: nat)
    ensures b > 0 ==> r > 0
  {
    if n == 0 then 1 else Pow(b, n - 1) * b
  }

  function Pow2(n: nat): (r: nat)
    ensures r > 0
  {
    Pow(2, n)
  }

  lemma {:induction false} PowAdd(b: nat, m: nat, n: nat)
    ensures Pow(b, m + n) == Pow(b, m) * Pow(b, n)
  {
    if m == 0 {
    } else {
      PowAdd(b, m - 1, n);
      assert (Pow(b, m - 1) * Pow(b, n)) * b == (Pow(b, m - 1) * b) * Pow(b, n);
    }
  }

  lemma PowStep(b: nat, n: nat)
    ensures Pow(b, n + 1) == Pow(b, n) * b == b * Pow(b, n)
  {
  }

  lemma {:induction false} PowMul(b: nat, m: nat, n: nat)
    ensures Pow(Pow(b, m), n) == Pow(b, m * n)
  {
    if n == 0 {
      assert m * n == 0;
    } else {
      PowMul(b, m, n - 1);
      PowAdd(b, m, m * (n - 1));
      assert m + m * (n - 1) == m * n;
    }
  }

  lemma {:induction false} PowMono(b: nat, m: nat, n: nat)
    requires b >= 2
    ensures m < n ==> Pow(b, m) < Pow(b, n)
    ensures m <= n ==> Pow(b, m) <= Pow(b, n)
    decreases n
  {
    if m < n {
      PowMono(b, m, n - 1);
    }
  }

  /** Big-endian value of a digit string, as the decoding loops accumulate it. */
  function Val(s: seq<int>, b: nat): int {
    if s == [] then 0 else Val(s[..|s| - 1], b) * b + s[|s| - 1]
  }

  predicate DigitsOf(s: seq<int>, b: nat) {
    forall i :: 0 <= i < |s| ==> 0 <= s[i] < b
  }

  /** The n low digits of v, most significant first. */
  function Digits(v: nat, n: nat, b: nat): (s: seq<int>)
    requires b > 0
    ensures |s| == n && DigitsOf(s, b)
    decreases n
  {
    if n == 0 then [] else
      var q, r := Quot(v, b), Rem(v, b);
      Digits(q, n - 1, b) + [r]
  }

  function Quot(v: nat, b: nat): (q: nat)
    requires b > 0
  {
    v / b
  }

  function Rem(v: nat, b: nat): (r: nat)
    requires b > 0
    ensures r < b
  {
    v % b
  }

  lemma MulLess(x: int, y: int, b: nat)
    requires x < y
    ensures x * b + b <= y * b
  {
    assert (y - x - 1) * b >= 0;
  }

  lemma QuotRem(v: nat, b: nat)
    requires b > 0
    ensures v == Quot(v, b) * b + Rem(v, b)
  {
  }

  /** Division with remainder is unique. */
  lemma QuotUnique(q: nat, r: nat, b: nat)
    requires r < b
    ensures Quot(q * b + r, b) == q && Rem(q * b + r, b) == r
  {
    var v := q * b + r;
    QuotRem(v, b);
    if Quot(v, b) > q {
      MulLess(q, Quot(v, b), b);
      assert false;
    } else if Quot(v, b) < q {
      MulLess(Quot(v, b), q, b);
      assert false;
    }
  }

  lemma QuotLess(v: nat, b: nat, p: nat)
    requires b > 0
    ensures v < p * b <==> Quot(v, b) < p
  {
    QuotRem(v, b);
    if Quot(v, b) < p {
      MulLess(Quot(v, b), p, b);
    } else if Quot(v, b) > p {
      MulLess(p, Quot(v, b), b);
    }
  }

  lemma {:induction false} ValBound(s: seq<int>, b: nat)
    requires DigitsOf(s, b)
    ensures 0 <= Val(s, b) < Pow(b, |s|)
  {
    if s != [] {
      var t := s[..|s| - 1];
      ValBound(t, b);
      MulLess(Val(t, b), Pow(b, |t|), b);
      MulLess(-1, Val(t, b), b);
    }
  }

  lemma ValSnoc(s: seq<int>, d: int, b: nat)
    ensures Val(s + [d], b) == Val(s, b) * b + d
  {
    assert (s + [d])[..|s|] == s;
  }

  lemma {:induction false} ValDigits(v: nat, n: nat, b: nat)
    requires b > 0 && v < Pow(b, n)
    ensures Val(Digits(v, n, b), b) == v
    decreases n
  {
    if n > 0 {
      QuotLess(v, b, Pow(b, n - 1));
      ValDigits(Quot(v, b), n - 1, b);
      QuotRem(v, b);
      var t := Digits(Quot(v, b), n - 1, b);
      assert Digits(v, n, b) == t + [Rem(v, b)];
      ValSnoc(t, Rem(v, b), b);
    }
  }

  lemma {:induction false} DigitsVal(s: seq<int>, b: nat)
    requires b > 0 && DigitsOf(s, b)
    ensures Val(s, b) >= 0 && Digits(Val(s, b), |s|, b) == s
  {
    ValBound(s, b);
    if s != [] {
      var t := s[..|s| - 1];
      DigitsVal(t, b);
      QuotUnique(Val(t, b), s[|s| - 1], b);
      assert s == t + [s[|s| - 1]];
    }
  }

  /** A digit string is determined by its length and value. */
  lemma DigitsUnique(s: seq<int>, v: nat, b: nat)
    requires b > 0 && DigitsOf(s, b) && v < Pow(b, |s|)
    ensures Val(s, b) == v <==> s == Digits(v, |s|, b)
  {
    ValDigits(v, |s|, b);
    DigitsVal(s, b);
  }

  lemma QuotQuot(v: nat, a: nat, b: nat)
    requires a > 0 && b > 0
    ensures a * b > 0 && Quot(v, a * b) == Quot(Quot(v, a), b)
  {
    var q := Quot(v, a);
    var p := Quot(q, b);
    var r := Rem(q, b);
    QuotRem(v, a);
    QuotRem(q, b);
    var low := r * a + Rem(v, a);
    MulLess(r, b, a);
    MulLess(-1, r, a);
    assert b * a == a * b;
    assert q * a == p * (a * b) + r * a by {
      assert (p * b + r) * a == (p * b) * a + r * a;
      assert (p * b) * a == p * (a * b);
    }
    QuotUnique(p, low, a * b);
  }

  /** The i-th digit of an n-digit string is the value shifted and masked. */
  lemma {:induction false} DigitAt(v: nat, n: nat, b: nat, i: nat)
    requires b > 0 && i < n
    ensures Digits(v, n, b)[i] == Rem(Quot(v, Pow(b, n - 1 - i)), b)
    decreases n
  {
    if i == n - 1 {
      assert Pow(b, 0) == 1;
    } else {
      var q, m := Quot(v, b), n - 2 - i;
      DigitAt(q, n - 1, b, i);
      QuotQuot(v, b, Pow(b, m));
      PowStep(b, m);
      assert Digits(v, n, b) == Digits(q, n - 1, b) + [Rem(v, b)];
    }
  }

  /** Concatenation of digit strings. */
  lemma {:induction false} ValConcat(s: seq<int>, t: seq<int>, b: nat)
    ensures Val(s + t, b) == Val(s, b) * Pow(b, |t|) + Val(t, b)
  {
    if t == [] {
      assert s + t == s;
    } else {
      var u := t[..|t| - 1];
      ValConcat(s, u, b);
      assert (s + t)[..|s + t| - 1] == s + u;
      assert (Val(s, b) * Pow(b, |u|)) * b == Val(s, b) * Pow(b, |t|) by {
        assert Pow(b, |t|) == b * Pow(b, |u|);
      }
      assert (Val(s, b) * Pow(b, |u|) + Val(u, b)) * b == (Val(s, b) * Pow(b, |u|)) * b + Val(u, b) * b;
    }
  }

  /** Bitwise exclusive or of two naturals. */
  function Xor(a: nat, b: nat): nat
    decreases a + b
  {
    if a == 0 && b == 0 then 0 else 2 * Xor(a / 2, b / 2) + (a % 2 + b % 2) % 2
  }

  /** Exclusive or with an all-ones mask complements within the mask. */
  lemma {:induction false} XorOnes(x: nat, n: nat)
    requires x < Pow2(n)
    ensures Xor(x, Pow2(n) - 1) == Pow2(n) - 1 - x
  {
    if n == 0 {
    } else {
      assert Pow2(n) == 2 * Pow2(n - 1);
      XorOnes(x / 2, n - 1);
      assert (Pow2(n) - 1) / 2 == Pow2(n - 1) - 1;
    }
  }

  const TWO64: nat := 0x1_0000_0000_0000_0000

  /** What a 64-bit register keeps of v. */
  function Wrap64(v: nat): (r: nat)
    ensures r < TWO64 && r <= v
  {
    if v < TWO64 then v else v % TWO64
  }
}
