/**
 shift_left and shift_right of the JTAG test: in-place one-bit shifts of a byte
 buffer with a carry, specified by recursive functions and characterised as
 multiplication and division of the buffer's little-endian value.
 */
module ByteShift {
  import opened Bytes

  /** One left shift: bytes from the low end, the carry enters at bit 0. */
  function Shl(s: seq<bv8>, carry: bv8): (r: seq<bv8>)
    ensures |r| == |s|
  {
    if s == [] then []
    else [(s[0] << 1) | carry] + Shl(s[1..], if s[0] & 0x80 != 0 then 1 else 0)
  }

  /** One right shift: bytes from the high end, the carry enters at the top bit. */
  function Shr(s: seq<bv8>, carry: bv8): (r: seq<bv8>)
    ensures |r| == |s|
    decreases |s|
  {
    if s == [] then []
    else
      var last := s[|s| - 1];
      Shr(s[..|s| - 1], if last & 1 != 0 then 0x80 else 0) + [carry | (last >> 1)]
  }

  /** The bit that one left shift pushes out of the buffer. */
  function TopBit(s: seq<bv8>): (r: nat)
    ensures r <= 1
  {
    if s != [] && s[|s| - 1] & 0x80 != 0 then 1 else 0
  }

  lemma ShlByte(b: bv8, c: bv8, next: bv8)
    requires c <= 1
    requires next == if b & 0x80 != 0 then 1 else 0
    ensures ((b << 1) | c) as nat + 256 * next as nat == 2 * (b as nat) + c as nat
  {
  }

  lemma ShrByte(b: bv8, c: bv8, next: bv8)
    requires c == 0 || c == 0x80
    requires next == if b & 1 != 0 then 0x80 else 0
    ensures 2 * (c | (b >> 1)) as nat + Bit(next) == b as nat + 256 * Bit(c)
  {
  }

  /** The carry of a right shift as a number. */
  function Bit(c: bv8): nat {
    if c == 0 then 0 else 1
  }

  /** The bit that leaves a buffer shifted left with this carry coming in. */
  function CarryOut(s: seq<bv8>, carry: bv8): nat {
    if s == [] then carry as nat else TopBit(s)
  }

  /** The arithmetic of one byte of a left shift. */
  lemma ShlStep(b: nat, b': nat, c: nat, next: nat, high: nat, high': nat, out: nat, p: nat)
    requires b' + 256 * next == 2 * b + c
    requires high' + out * p == 2 * high + next
    ensures b' + 256 * high' + out * (256 * p) == 2 * (b + 256 * high) + c
  {
    assert out * (256 * p) == 256 * (out * p);
  }

  /** The bytes above the lowest one are shifted with the lowest one's top bit coming in. */
  lemma ShlUnfold(s: seq<bv8>, carry: bv8, next: bv8)
    requires s != [] && carry <= 1
    requires next == if s[0] & 0x80 != 0 then 1 else 0
    ensures Value(Shl(s, carry)) == ((s[0] << 1) | carry) as nat + 256 * Value(Shl(s[1..], next))
    ensures CarryOut(s, carry) == CarryOut(s[1..], next)
  {
    assert Shl(s, carry)[1..] == Shl(s[1..], next);
  }

  lemma {:induction false} ShlValue(s: seq<bv8>, carry: bv8)
    requires carry <= 1
    ensures Value(Shl(s, carry)) + CarryOut(s, carry) * Pow256(|s|) == 2 * Value(s) + carry as nat
  {
    if s != [] {
      var next: bv8 := if s[0] & 0x80 != 0 then 1 else 0;
      ShlByte(s[0], carry, next);
      ShlUnfold(s, carry, next);
      ShlValue(s[1..], next);
      ShlStep(s[0] as nat, ((s[0] << 1) | carry) as nat, carry as nat, next as nat,
        Value(s[1..]), Value(Shl(s[1..], next)), CarryOut(s, carry), Pow256(|s| - 1));
    }
  }

  /** shift_left doubles the buffer modulo its capacity. */
  lemma ShlDoubles(s: seq<bv8>)
    ensures Value(Shl(s, 0)) == 2 * Value(s) % Pow256(|s|)
  {
    ShlValue(s, 0);
    ValueBound(Shl(s, 0));
    DivModUnique(2 * Value(s), Pow256(|s|), if s == [] then 0 else TopBit(s), Value(Shl(s, 0)));
  }

  /** The bit that leaves a buffer shifted right with this carry coming in. */
  function LowOut(s: seq<bv8>, carry: bv8): nat {
    if s == [] then Bit(carry) else if s[0] & 1 != 0 then 1 else 0
  }

  /** The arithmetic of one byte of a right shift, above a low part of capacity p. */
  lemma ShrStep(p: nat, low: nat, low': nat, b: nat, b': nat, c: nat, next: nat, out: nat)
    requires 2 * b' + next == b + 256 * c
    requires 2 * low' + out == low + next * p
    ensures 2 * (low' + p * b') + out == low + p * b + c * (256 * p)
  {
    assert p * (2 * b' + next) == 2 * (p * b') + next * p;
    assert p * (b + 256 * c) == p * b + c * (256 * p);
  }

  /** The bytes below the highest one are shifted with the highest one's low bit coming in. */
  lemma ShrUnfold(init: seq<bv8>, last: bv8, carry: bv8, next: bv8)
    requires next == if last & 1 != 0 then 0x80 else 0
    ensures Shr(init + [last], carry) == Shr(init, next) + [carry | (last >> 1)]
    ensures LowOut(init + [last], carry) == LowOut(init, next)
  {
    var s := init + [last];
    assert s[..|s| - 1] == init;
  }

  lemma ShrValueStep(init: seq<bv8>, last: bv8, carry: bv8, next: bv8)
    requires carry == 0 || carry == 0x80
    requires next == if last & 1 != 0 then 0x80 else 0
    requires 2 * Value(Shr(init, next)) + LowOut(init, next) == Value(init) + Bit(next) * Pow256(|init|)
    ensures 2 * Value(Shr(init, next) + [carry | (last >> 1)]) + LowOut(init, next)
         == Value(init + [last]) + Bit(carry) * (256 * Pow256(|init|))
  {
    var half := carry | (last >> 1);
    ShrByte(last, carry, next);
    ValueTop(init, last);
    ValueTop(Shr(init, next), half);
    ShrStep(Pow256(|init|), Value(init), Value(Shr(init, next)), last as nat, half as nat,
      Bit(carry), Bit(next), LowOut(init, next));
  }

  lemma {:induction false} ShrValue(s: seq<bv8>, carry: bv8)
    requires carry == 0 || carry == 0x80
    ensures 2 * Value(Shr(s, carry)) + LowOut(s, carry) == Value(s) + Bit(carry) * Pow256(|s|)
    decreases |s|
  {
    if s != [] {
      var init, last := s[..|s| - 1], s[|s| - 1];
      var next: bv8 := if last & 1 != 0 then 0x80 else 0;
      assert s == init + [last];
      ShrValue(init, next);
      ShrUnfold(init, last, carry, next);
      ShrValueStep(init, last, carry, next);
    }
  }

  /** shift_right halves the buffer, rounding down. */
  lemma ShrHalves(s: seq<bv8>)
    ensures Value(Shr(s, 0)) == Value(s) / 2
  {
    ShrValue(s, 0);
  }

  /** shift_right undoes shift_left exactly when the bit pushed out was clear. */
  lemma ShrUndoesShl(s: seq<bv8>)
    ensures Shr(Shl(s, 0), 0) == s <==> TopBit(s) == 0
  {
    ShlValue(s, 0);
    ShrHalves(Shl(s, 0));
    if TopBit(s) == 0 {
      ValueInjective(Shr(Shl(s, 0), 0), s);
    }
  }

  function ShlN(s: seq<bv8>, k: nat): (r: seq<bv8>)
    ensures |r| == |s|
  {
    if k == 0 then s else Shl(ShlN(s, k - 1), 0)
  }

  function ShrN(s: seq<bv8>, k: nat): (r: seq<bv8>)
    ensures |r| == |s|
  {
    if k == 0 then s else Shr(ShrN(s, k - 1), 0)
  }

  /** (2 * (x mod m)) mod m is 2x mod m. */
  lemma DoubleMod(x: nat, m: nat)
    requires m > 0
    ensures 2 * (x % m) % m == 2 * x % m
  {
    var q, r := x / m, x % m;
    var q', r' := 2 * r / m, 2 * r % m;
    DoubleSplit(x, m, q, r, q', r');
    DivModUnique(2 * x, m, 2 * q + q', r');
  }

  lemma DoubleSplit(x: nat, m: nat, q: nat, r: nat, q': nat, r': nat)
    requires x == q * m + r && 2 * r == q' * m + r'
    ensures 2 * x == (2 * q + q') * m + r'
  {
    assert (2 * q + q') * m == 2 * (q * m) + q' * m;
  }

  /** k left shifts multiply by 2^k modulo the buffer's capacity. */
  lemma {:induction false} ShlNValue(s: seq<bv8>, k: nat)
    ensures Value(ShlN(s, k)) == Value(s) * Pow2(k) % Pow256(|s|)
  {
    if k == 0 {
      ValueBound(s);
      DivModUnique(Value(s), Pow256(|s|), 0, Value(s));
    } else {
      ShlNValue(s, k - 1);
      ShlDoubles(ShlN(s, k - 1));
      DoubleMod(Value(s) * Pow2(k - 1), Pow256(|s|));
      MulAssoc(2, Value(s), Pow2(k - 1));
      MulAssoc(Value(s), 2, Pow2(k - 1));
    }
  }

  lemma HalveQuotient(x: nat, d: nat)
    requires d > 0
    ensures x / d / 2 == x / (2 * d)
  {
    var q, r := x / d, x % d;
    var h, b := q / 2, q % 2;
    assert x == q * d + r && q == 2 * h + b;
    assert q * d == h * (2 * d) + b * d;
    assert b * d + r < 2 * d;
    DivModUnique(x, 2 * d, h, b * d + r);
  }

  /** k right shifts divide by 2^k, rounding down. */
  lemma {:induction false} ShrNValue(s: seq<bv8>, k: nat)
    ensures Value(ShrN(s, k)) == Value(s) / Pow2(k)
  {
    if k != 0 {
      ShrNValue(s, k - 1);
      ShrHalves(ShrN(s, k - 1));
      HalveQuotient(Value(s), Pow2(k - 1));
    }
  }

  lemma QuotientBelow(x: nat, p: nat, v: nat)
    requires p > 0 && x < v * p
    ensures x / p < v
  {
    if v <= x / p {
      MulMonotone(v, x / p, p);
    }
  }

  /** Dividing the wrapped product by the factor gives the number back iff nothing wrapped. */
  lemma WrappedProduct(v: nat, p: nat, m: nat)
    requires p > 0 && m > 0
    ensures v * p % m / p == v <==> v * p < m
  {
    var x, q := v * p % m, v * p / m;
    if v * p < m {
      DivModUnique(v * p, m, 0, v * p);
      DivModUnique(x, p, v, 0);
    } else {
      assert x < v * p;
      QuotientBelow(x, p, v);
    }
  }

  /** k right shifts undo k left shifts exactly when no set bit was pushed out. */
  lemma ShrNUndoesShlN(s: seq<bv8>, k: nat)
    ensures ShrN(ShlN(s, k), k) == s <==> Value(s) * Pow2(k) < Pow256(|s|)
  {
    ShlNValue(s, k);
    ShrNValue(ShlN(s, k), k);
    WrappedProduct(Value(s), Pow2(k), Pow256(|s|));
    if Value(s) * Pow2(k) < Pow256(|s|) {
      ValueInjective(ShrN(ShlN(s, k), k), s);
    }
  }

  /** The carry that enters byte k of a left, respectively right, shift. */
  function CarryUp(s: seq<bv8>, k: nat): bv8
    requires k <= |s|
  {
    if k > 0 && s[k - 1] & 0x80 != 0 then 1 else 0
  }

  function CarryDown(s: seq<bv8>, k: nat): bv8
    requires 0 < k <= |s|
  {
    if k < |s| && s[k] & 1 != 0 then 0x80 else 0
  }

  lemma {:induction false} ShlAt(s: seq<bv8>, carry: bv8, k: nat)
    requires k < |s|
    ensures Shl(s, carry)[k] == (s[k] << 1) | (if k == 0 then carry else CarryUp(s, k))
  {
    if k > 0 {
      ShlAt(s[1..], if s[0] & 0x80 != 0 then 1 else 0, k - 1);
    }
  }

  lemma {:induction false} ShrAt(s: seq<bv8>, carry: bv8, k: nat)
    requires k < |s|
    ensures Shr(s, carry)[k] == (if k + 1 == |s| then carry else CarryDown(s, k + 1)) | (s[k] >> 1)
    decreases |s|
  {
    if k + 1 < |s| {
      ShrAt(s[..|s| - 1], if s[|s| - 1] & 1 != 0 then 0x80 else 0, k);
    }
  }

  /** shift_left on the first n bytes of a buffer. */
  method ShiftLeft(buffer: array<bv8>, n: nat)
    requires n <= buffer.Length
    modifies buffer
    ensures buffer[..n] == Shl(old(buffer[..n]), 0)
    ensures buffer[n..] == old(buffer[n..])
  {
    ghost var was := buffer[..n];
    var carry: bv8 := 0;
    for i := 0 to n
      invariant carry == CarryUp(was, i)
      invariant forall k :: 0 <= k < i ==> buffer[k] == (was[k] << 1) | CarryUp(was, k)
      invariant forall k :: i <= k < buffer.Length ==> buffer[k] == old(buffer[k])
    {
      var next: bv8 := if buffer[i] & 0x80 != 0 then 1 else 0;
      buffer[i] := (buffer[i] << 1) | carry;
      carry := next;
    }
    forall k | 0 <= k < n ensures buffer[..n][k] == Shl(was, 0)[k] {
      ShlAt(was, 0, k);
    }
  }

  /** shift_right on the first n bytes of a buffer. */
  method ShiftRight(buffer: array<bv8>, n: nat)
    requires n <= buffer.Length
    modifies buffer
    ensures buffer[..n] == Shr(old(buffer[..n]), 0)
    ensures buffer[n..] == old(buffer[n..])
  {
    ghost var was := buffer[..n];
    var carry: bv8 := 0;
    for i := n downto 0
      invariant i > 0 ==> carry == CarryDown(was, i)
      invariant forall k :: i <= k < n ==> buffer[k] == CarryDown(was, k + 1) | (was[k] >> 1)
      invariant forall k :: 0 <= k < buffer.Length && (k < i || n <= k) ==> buffer[k] == old(buffer[k])
    {
      var next: bv8 := if buffer[i] & 1 != 0 then 0x80 else 0;
      buffer[i] := carry | (buffer[i] >> 1);
      carry := next;
    }
    forall k | 0 <= k < n ensures buffer[..n][k] == Shr(was, 0)[k] {
      ShrAt(was, 0, k);
    }
  }
}
