/** Hostname restrictions of key certificates: securepath/crypto/key_certificate.cpp. */
module KeyRestriction {
  import opened Options

  /** An empty hostname is no restriction. */
  datatype Restriction = Restriction(hostname: string)

  const UNRESTRICTED := Restriction("")

  /** std::tolower in the C locale. */
  function ToLowerChar(c: char): char {
    if 'A' <= c <= 'Z' then ((c as int) - ('A' as int) + ('a' as int)) as char else c
  }

  function ToLower(s: string): (r: string)
    ensures |r| == |s|
  {
    seq(|s|, i requires 0 <= i < |s| => ToLowerChar(s[i]))
  }

  predicate EndsWith(s: string, suffix: string) {
    |suffix| <= |s| && s[|s| - |suffix|..] == suffix
  }

  function Dotted(host: string): string
    requires host != ""
  {
    if host[0] != '.' then "." + host else host
  }

  predicate HostBelow(mine: string, other: string)
    requires other != ""
  {
    mine == other || EndsWith(mine, Dotted(other))
  }

  predicate IsSubsetOf(r: Restriction, other: Restriction) {
    other.hostname == "" || HostBelow(ToLower(r.hostname), ToLower(other.hostname))
  }

  /** None where the source throws. */
  function Merge(r1: Restriction, r2: Restriction): Option<Restriction> {
    if IsSubsetOf(r1, r2) then Some(r1)
    else if IsSubsetOf(r2, r1) then Some(r2)
    else None
  }

  // ---- which hostnames are below which ----

  /** The same letter, lower or upper case. */
  predicate SameLetter(c: char, d: char) {
    || c == d
    || ('A' <= c <= 'Z' && d as int == c as int + 32)
    || ('A' <= d <= 'Z' && c as int == d as int + 32)
  }

  predicate SameUpToCase(s: string, t: string) {
    |s| == |t| && forall i :: 0 <= i < |s| ==> SameLetter(s[i], t[i])
  }

  lemma LowerSame(s: string, t: string)
    ensures ToLower(s) == ToLower(t) <==> SameUpToCase(s, t)
  {
    if ToLower(s) == ToLower(t) {
      forall i | 0 <= i < |s|
        ensures SameLetter(s[i], t[i])
      {
        assert ToLower(s)[i] == ToLower(t)[i];
      }
    }
  }

  /** A hostname is below no hostname, below itself, and below every hostname whose labels
      it ends in, with a dot between; case does not matter. */
  lemma SubsetExactly(r: Restriction, o: Restriction)
    ensures var (x, y) := (r.hostname, o.hostname);
      IsSubsetOf(r, o) <==>
        || y == ""
        || SameUpToCase(x, y)
        || (|x| >= |y| && SameUpToCase(x[|x| - |y|..], y)
            && (y[0] == '.' || (|x| > |y| && x[|x| - |y| - 1] == '.')))
  {
    var x, y := r.hostname, o.hostname;
    LowerSame(x, y);
    if y != "" {
      var a, b := ToLower(x), ToLower(y);
      assert y[0] == '.' <==> b[0] == '.';
      if |y| <= |x| {
        var k := |x| - |y|;
        LowerSame(x[k..], y);
        assert ToLower(x[k..]) == a[k..];
        if k > 0 {
          assert x[k - 1] == '.' <==> a[k - 1] == '.';
          DottedSuffix(a, b, k);
        }
      }
    }
  }

  lemma DottedSuffix(a: string, b: string, k: nat)
    requires 0 < k == |a| - |b|
    ensures EndsWith(a, "." + b) <==> a[k - 1] == '.' && a[k..] == b
  {
    assert a[k - 1..] == [a[k - 1]] + a[k..];
    if a[k - 1..] == "." + b {
      assert a[k - 1] == ("." + b)[0] && a[k..] == ("." + b)[1..];
    }
  }

  // ---- an order ----

  lemma EndsWithTransitive(a: string, b: string, c: string)
    requires EndsWith(a, b) && EndsWith(b, c)
    ensures EndsWith(a, c)
  {
    assert a[|a| - |c|..] == a[|a| - |b|..][|b| - |c|..];
  }

  /** Of two suffixes of one string the shorter is a suffix of the longer. */
  lemma SuffixesNest(s: string, a: string, b: string)
    requires EndsWith(s, a) && EndsWith(s, b) && |a| <= |b|
    ensures EndsWith(b, a)
  {
    assert s[|s| - |b|..][|b| - |a|..] == s[|s| - |a|..];
  }

  lemma DottedBelow(a: string, b: string)
    requires a != "" && b != "" && EndsWith(a, Dotted(b))
    ensures EndsWith(Dotted(a), Dotted(b))
  {
    assert EndsWith(Dotted(a), a) by {
      assert ("." + a)[1..] == a;
    }
    EndsWithTransitive(Dotted(a), a, Dotted(b));
  }

  lemma SubsetTransitive(a: Restriction, b: Restriction, c: Restriction)
    requires IsSubsetOf(a, b) && IsSubsetOf(b, c)
    ensures IsSubsetOf(a, c)
  {
    if c.hostname != "" && b.hostname != "" {
      var x, y, z := ToLower(a.hostname), ToLower(b.hostname), ToLower(c.hostname);
      if x != y && y != z {
        DottedBelow(y, z);
        EndsWithTransitive(x, Dotted(y), Dotted(z));
      }
    }
  }

  /** A subset both ways is the same name up to case. */
  lemma SubsetAntisymmetric(a: Restriction, b: Restriction)
    requires IsSubsetOf(a, b) && IsSubsetOf(b, a)
    ensures ToLower(a.hostname) == ToLower(b.hostname)
  {
  }

  /** Two names below which lies a common one are themselves one below the other. */
  lemma CommonSubsetComparable(x: Restriction, a: Restriction, b: Restriction)
    requires IsSubsetOf(x, a) && IsSubsetOf(x, b)
    ensures IsSubsetOf(a, b) || IsSubsetOf(b, a)
  {
    if a.hostname != "" && b.hostname != "" {
      var s, p, q := ToLower(x.hostname), ToLower(a.hostname), ToLower(b.hostname);
      if s != p && s != q {
        if |Dotted(p)| <= |Dotted(q)| {
          SuffixesNest(s, Dotted(p), Dotted(q));
          NestedDotted(p, q);
        } else {
          SuffixesNest(s, Dotted(q), Dotted(p));
          NestedDotted(q, p);
        }
      }
    }
  }

  lemma SameDotted(p: string, q: string)
    requires p != "" && q != "" && Dotted(p) == Dotted(q)
    ensures HostBelow(q, p) || HostBelow(p, q)
  {
    if p[0] == '.' {
      assert EndsWith(p, Dotted(q)) by {
        assert p[0..] == p;
      }
    } else if q[0] == '.' {
      assert EndsWith(q, Dotted(p)) by {
        assert q[0..] == q;
      }
    } else {
      assert p == Dotted(p)[1..] && q == Dotted(q)[1..];
    }
  }

  lemma NestedDotted(p: string, q: string)
    requires p != "" && q != "" && EndsWith(Dotted(q), Dotted(p))
    ensures HostBelow(q, p) || HostBelow(p, q)
  {
    if q[0] == '.' {
    } else if |Dotted(p)| <= |q| {
      assert EndsWith(Dotted(q), q) by {
        assert ("." + q)[1..] == q;
      }
      SuffixesNest(Dotted(q), Dotted(p), q);
    } else {
      assert Dotted(q)[0..] == Dotted(q);
      SameDotted(p, q);
    }
  }

  /** merge gives the largest restriction below both. */
  lemma MergeIsGreatestLowerBound(r1: Restriction, r2: Restriction, x: Restriction)
    requires Merge(r1, r2).Some?
    ensures IsSubsetOf(Merge(r1, r2).value, r1) && IsSubsetOf(Merge(r1, r2).value, r2)
    ensures IsSubsetOf(x, r1) && IsSubsetOf(x, r2) <==> IsSubsetOf(x, Merge(r1, r2).value)
  {
    var m := Merge(r1, r2).value;
    if IsSubsetOf(x, m) {
      SubsetTransitive(x, m, r1);
      SubsetTransitive(x, m, r2);
    }
  }

  /** It throws exactly if no restriction is below both. */
  lemma MergeFailsExactly(r1: Restriction, r2: Restriction)
    ensures Merge(r1, r2).None? <==> forall x :: !(IsSubsetOf(x, r1) && IsSubsetOf(x, r2))
  {
    if Merge(r1, r2).Some? {
      MergeIsGreatestLowerBound(r1, r2, r1);
    } else {
      forall x
        ensures !(IsSubsetOf(x, r1) && IsSubsetOf(x, r2))
      {
        if IsSubsetOf(x, r1) && IsSubsetOf(x, r2) {
          CommonSubsetComparable(x, r1, r2);
        }
      }
    }
  }
}
