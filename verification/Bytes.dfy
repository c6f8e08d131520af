/**
 Byte buffers read as little-endian natural numbers, the reading that the JTAG
 test and the hex printer give to their `unsigned char` arrays.
 */
module Bytes {

  function Pow2(k: nat): (r: nat)
    ensures r >= 1
  {
    if k == 0 then 1 else 2 * Pow2(k - 1)
  }

  /** The number of values an n-byte buffer can hold. */
  function Pow256(n: nat): (r: nat)
    ensures r >= 1
  {
    if n == 0 then 1 else 256 * Pow256(n - 1)
  }

  /** The number whose least significant byte is s[0]. */
  function Value(s: seq<bv8>): nat {
    if s == [] then 0 else s[0] as nat + 256 * Value(s[1..])
  }

  lemma {:induction false} Pow2Add(a: nat, b: nat)
    ensures Pow2(a + b) == Pow2(a) * Pow2(b)
  {
    if a != 0 {
      Pow2Add(a - 1, b);
      MulAssoc(2, Pow2(a - 1), Pow2(b));
    }
  }

  lemma {:induction false} Pow2Monotone(a: nat, b: nat)
    requires a <= b
    ensures Pow2(a) <= Pow2(b)
    decreases b
  {
    if a < b {
      Pow2Monotone(a, b - 1);
    }
  }

  lemma {:induction false} Pow256IsPow2(n: nat)
    ensures Pow256(n) == Pow2(8 * n)
  {
    if n != 0 {
      Pow256IsPow2(n - 1);
      Pow2Add(8, 8 * (n - 1));
      assert Pow2(8) == 256 by { Pow2Add(4, 4); assert Pow2(4) == 16; }
    }
  }

  lemma {:induction false} ValueConcat(a: seq<bv8>, b: seq<bv8>)
    ensures Value(a + b) == Value(a) + Pow256(|a|) * Value(b)
  {
    if a == [] {
      assert a + b == b;
    } else {
      ValueConcat(a[1..], b);
      assert (a + b)[1..] == a[1..] + b;
      MulAssoc(256, Pow256(|a| - 1), Value(b));
    }
  }

  lemma SingleByte(b: bv8)
    ensures Value([b]) == b as nat
  {
    assert [b][1..] == [];
  }

  /** The value of a buffer, split at its highest byte. */
  lemma ValueTop(init: seq<bv8>, last: bv8)
    ensures Value(init + [last]) == Value(init) + Pow256(|init|) * last as nat
  {
    ValueConcat(init, [last]);
    SingleByte(last);
  }

  lemma {:induction false} ValueBound(s: seq<bv8>)
    ensures Value(s) < Pow256(|s|)
  {
    if s != [] {
      ValueBound(s[1..]);
    }
  }

  /** A buffer of known length is determined by its value. */
  lemma {:induction false} ValueInjective(a: seq<bv8>, b: seq<bv8>)
    requires |a| == |b| && Value(a) == Value(b)
    ensures a == b
  {
    if a != [] {
      EuclidUnique(256, Value(a[1..]), a[0] as nat, Value(b[1..]), b[0] as nat);
      ByteInjective(a[0], b[0]);
      ValueInjective(a[1..], b[1..]);
      assert a == [a[0]] + a[1..];
      assert b == [b[0]] + b[1..];
    }
  }

  lemma ByteInjective(a: bv8, b: bv8)
    requires a as nat == b as nat
    ensures a == b
  {
    assert a == (a as nat) as bv8;
  }

  /** Replacing the low byte changes the value by the difference of the bytes. */
  lemma ValueSetLow(s: seq<bv8>, b: bv8)
    requires s != []
    ensures Value(s[0 := b]) == Value(s) - Value(s) % 256 + b as nat
  {
    assert s[0 := b][1..] == s[1..];
    LowByte(s[0] as nat, Value(s[1..]));
  }

  lemma LowByte(b: nat, high: nat)
    requires b < 256
    ensures (b + 256 * high) % 256 == b
  {
    DivModUnique(b + 256 * high, 256, high, b);
  }

  // Non-linear facts, each kept apart so that no other proof needs them.

  lemma MulAssoc(a: int, b: int, c: int)
    ensures a * (b * c) == a * b * c
  {
  }

  lemma MulSub(a: int, b: int, c: int)
    ensures (a - b) * c == a * c - b * c
  {
  }

  lemma MulMonotone(a: nat, b: nat, c: nat)
    requires a <= b
    ensures a * c <= b * c
  {
  }

  lemma EuclidUnique(d: nat, q: nat, r: nat, q': nat, r': nat)
    requires r < d && r' < d && q * d + r == q' * d + r'
    ensures q == q' && r == r'
  {
    MulSub(q, q', d);
    MulSub(q', q, d);
    if q' < q {
      MulMonotone(1, q - q', d);
    } else if q < q' {
      MulMonotone(1, q' - q, d);
    }
  }

  /** Euclidean division is determined by its defining equation. */
  lemma DivModUnique(x: nat, d: nat, q: nat, r: nat)
    requires r < d && x == q * d + r
    ensures x / d == q && x % d == r
  {
    EuclidUnique(d, q, r, x / d, x % d);
  }

  lemma DigitBound(x: nat, v: nat, p: nat, w: nat)
    requires x < p && v < w
    ensures x + v * p < p * w
  {
    MulMonotone(v + 1, w, p);
    assert (v + 1) * p == v * p + p;
  }

  lemma Regroup(q: nat, q': nat, r': nat, a: nat, b: nat)
    requires q == q' * b + r'
    ensures q * a == q' * (a * b) + r' * a
  {
    MulAssoc(q', b, a);
  }

  lemma DivDiv(x: nat, a: nat, b: nat)
    requires a > 0 && b > 0
    ensures a * b > 0 && x / (a * b) == x / a / b
  {
    var q, r := x / a, x % a;
    var q', r' := q / b, q % b;
    Regroup(q, q', r', a, b);
    DigitBound(r, r', a, b);
    DivModUnique(x, a * b, q', r' * a + r);
  }
}
