/** Numbers as bit strings, most significant bit first. */
module Bits {

  function Pow2(k: nat): (p: nat)
    ensures p > 0
  {
    if k == 0 then 1 else 2 * Pow2(k - 1)
  }

  function Val(s: seq<bool>): nat {
    if s == [] then 0 else 2 * Val(s[..|s| - 1]) + (if s[|s| - 1] then 1 else 0)
  }

  function ToBits(a: nat, n: nat): (s: seq<bool>)
    ensures |s| == n
  {
    if n == 0 then [] else ToBits(a / 2, n - 1) + [a % 2 == 1]
  }

  lemma {:induction false} ValToBits(a: nat, n: nat)
    requires a < Pow2(n)
    ensures Val(ToBits(a, n)) == a
  {
    if n > 0 {
      ValToBits(a / 2, n - 1);
      assert ToBits(a, n)[..n - 1] == ToBits(a / 2, n - 1);
    }
  }

  lemma {:induction false} ToBitsVal(s: seq<bool>)
    ensures ToBits(Val(s), |s|) == s
  {
    if s != [] {
      ToBitsVal(s[..|s| - 1]);
      assert s == s[..|s| - 1] + [s[|s| - 1]];
    }
  }

  lemma {:induction false} ValBound(s: seq<bool>)
    ensures Val(s) < Pow2(|s|)
  {
    if s != [] {
      ValBound(s[..|s| - 1]);
    }
  }

  lemma {:induction false} ValConcat(a: seq<bool>, b: seq<bool>)
    ensures Val(a + b) == Val(a) * Pow2(|b|) + Val(b)
  {
    if b == [] {
      assert a + b == a;
    } else {
      var c := b[..|b| - 1];
      ValConcat(a, c);
      assert (a + b)[..|a + b| - 1] == a + c;
      DoubleProduct(Val(a), Pow2(|c|));
    }
  }

  lemma DoubleProduct(x: nat, p: nat)
    ensures 2 * (x * p) == x * (2 * p)
  {
  }

  lemma {:induction false} ValOnes(s: seq<bool>)
    requires forall i :: 0 <= i < |s| ==> s[i]
    ensures Val(s) == Pow2(|s|) - 1
  {
    if s != [] {
      ValOnes(s[..|s| - 1]);
    }
  }

  lemma ModUnique(x: nat, d: nat, q: nat, r: nat)
    requires d > 0 && x == q * d + r && r < d
    ensures x % d == r && x / d == q
  {
    var k := x / d;
    assert x == d * k + x % d;
    if k < q {
      MulLess(d, k, q);
      assert false;
    } else if k > q {
      MulLess(d, q, k);
      assert false;
    }
  }

  lemma MulLess(d: nat, a: int, b: int)
    requires a < b
    ensures d * a + d <= d * b
  {
    ProductIsNatural(d, b - a - 1);
    assert d * b == d * a + d + d * (b - a - 1);
  }

  lemma {:induction false} ProductIsNatural(d: nat, k: nat)
    ensures d * k >= 0
  {
    if k > 0 {
      ProductIsNatural(d, k - 1);
      assert d * k == d * (k - 1) + d;
    }
  }

  /** The low bits of a bit string are its value modulo their weight. */
  lemma LowBits(s: seq<bool>, p: nat)
    requires p <= |s|
    ensures Val(s) % Pow2(|s| - p) == Val(s[p..])
    ensures Val(s) - Val(s) % Pow2(|s| - p) == Val(s[..p]) * Pow2(|s| - p)
  {
    assert s == s[..p] + s[p..];
    ValConcat(s[..p], s[p..]);
    ValBound(s[p..]);
    ModUnique(Val(s), Pow2(|s| - p), Val(s[..p]), Val(s[p..]));
  }
}
