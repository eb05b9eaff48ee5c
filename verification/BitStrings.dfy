/** Bit strings, most significant bit first, and the numbers they spell. */
module BitStrings {
  type Bits = seq<bool>

  function Pow2(n: nat): nat {
    if n == 0 then 1 else 2 * Pow2(n - 1)
  }

  function Value(b: Bits): nat {
    if b == [] then 0 else 2 * Value(b[..|b| - 1]) + (if b[|b| - 1] then 1 else 0)
  }

  function ToBits(v: nat, n: nat): (b: Bits)
    ensures |b| == n
  {
    if n == 0 then [] else ToBits(v / 2, n - 1) + [v % 2 == 1]
  }

  lemma {:induction false} ValueBound(b: Bits)
    ensures Value(b) < Pow2(|b|)
  {
    if b != [] { ValueBound(b[..|b| - 1]); }
  }

  lemma {:induction false} ToBitsOfValue(b: Bits)
    ensures ToBits(Value(b), |b|) == b
  {
    if b != [] {
      var i := b[..|b| - 1];
      ToBitsOfValue(i);
      assert Value(b) / 2 == Value(i);
      assert b == i + [b[|b| - 1]];
    }
  }

  lemma {:induction false} ValueOfToBits(v: nat, n: nat)
    requires v < Pow2(n)
    ensures Value(ToBits(v, n)) == v
  {
    if n > 0 {
      ValueOfToBits(v / 2, n - 1);
      var b := ToBits(v, n);
      assert b[..n - 1] == ToBits(v / 2, n - 1);
    }
  }

  lemma ValueInjective(a: Bits, b: Bits)
    requires |a| == |b| && Value(a) == Value(b)
    ensures a == b
  {
    ToBitsOfValue(a);
    ToBitsOfValue(b);
  }

  lemma {:induction false} ValueAppend(x: Bits, y: Bits)
    ensures Value(x + y) == Value(x) * Pow2(|y|) + Value(y)
  {
    if y == [] {
      assert x + y == x;
    } else {
      var i := y[..|y| - 1];
      ValueAppend(x, i);
      assert (x + y)[..|x + y| - 1] == x + i;
      assert Value(x) * (2 * Pow2(|i|)) == 2 * (Value(x) * Pow2(|i|));
    }
  }

  lemma {:induction false} ZeroValue(g: Bits)
    requires forall i :: 0 <= i < |g| ==> !g[i]
    ensures Value(g) == 0
  {
    if g != [] { ZeroValue(g[..|g| - 1]); }
  }

  function Zeros(n: nat): (b: Bits)
    ensures |b| == n && forall i :: 0 <= i < n ==> !b[i]
  {
    seq(n, _ => false)
  }
}
