/**
 The instruction-register command of the JTAG test: one field per device, built
 by shifting the buffer left and overwriting its lowest byte.
 */
module IrPacking {
  import opened Basics
  import opened JtagSizes
  import opened Bytes
  import opened ByteShift

  /** The fewest bytes that hold the fields. */
  function IrSize(count: nat, width: nat): (r: nat)
    ensures 8 * r - 8 < count * width <= 8 * r
  {
    (count * width + 7) / 8
  }

  /** What the command should be: value v at every multiple of the field width. */
  function IrFields(count: nat, width: nat, v: nat): nat {
    if count == 0 then 0
    else IrFields(count - 1, width, v) + v * Pow2((count - 1) * width)
  }

  /** The first `size` bytes of the command after `rounds` devices. */
  function Packed(rounds: nat, width: nat, v: bv8, size: nat): (r: seq<bv8>)
    ensures |r| == size
  {
    if rounds == 0 then Repeat(size, 0 as bv8)
    else
      var shifted := ShlN(Packed(rounds - 1, width, v, size), width);
      if size == 0 then shifted else shifted[0 := v]
  }

  lemma {:induction false} ZerosValue(n: nat)
    ensures Value(Repeat(n, 0 as bv8)) == 0
  {
    if n > 0 {
      assert Repeat(n, 0 as bv8)[1..] == Repeat(n - 1, 0 as bv8);
      ZerosValue(n - 1);
    }
  }

  /** Horner form of IrFields: one more device shifts the others up and adds v below. */
  lemma {:induction false} FieldsShift(count: nat, width: nat, v: nat)
    ensures IrFields(count + 1, width, v) == IrFields(count, width, v) * Pow2(width) + v
  {
    if count == 0 {
      assert IrFields(0, width, v) == 0 && IrFields(1, width, v) == v * Pow2(0);
    } else {
      FieldsShift(count - 1, width, v);
      Pow2Add((count - 1) * width, width);
      assert (count - 1) * width + width == count * width;
      Distribute(IrFields(count - 1, width, v), v, Pow2((count - 1) * width), Pow2(width));
    }
  }

  lemma Distribute(x: nat, v: nat, p: nat, w: nat)
    ensures (x + v * p) * w == x * w + v * (p * w)
  {
    MulAssoc(v, p, w);
  }

  lemma {:induction false} FieldsBound(count: nat, width: nat, v: nat)
    requires v < Pow2(width)
    ensures IrFields(count, width, v) < Pow2(count * width)
  {
    if count > 0 {
      FieldsBound(count - 1, width, v);
      Pow2Add((count - 1) * width, width);
      assert (count - 1) * width + width == count * width;
      DigitBound(IrFields(count - 1, width, v), v, Pow2((count - 1) * width), Pow2(width));
    }
  }

  /** Eight or more shifts clear the byte that is overwritten next. */
  lemma ShiftedLowByte(x: nat, width: nat)
    requires width >= 8
    ensures x * Pow2(width) % 256 == 0
  {
    Pow2Add(8, width - 8);
    Pow256IsPow2(1);
    MulAssoc(x, Pow2(width - 8), 256);
    DivModUnique(x * Pow2(width), 256, x * Pow2(width - 8), 0);
  }

  /** The bits of the first i + 1 devices fit in the buffer of a command for n > i devices. */
  lemma RoomForRound(i: nat, count: nat, width: nat)
    requires i < count
    ensures Pow2(i * width + width) <= Pow256(IrSize(count, width))
  {
    MulMonotone(i + 1, count, width);
    Pow256IsPow2(IrSize(count, width));
    Pow2Monotone(i * width + width, 8 * IrSize(count, width));
  }

  lemma NoWrap(x: nat, width: nat, bits: nat, cap: nat)
    requires x < Pow2(bits) && Pow2(bits + width) <= cap
    ensures x * Pow2(width) < cap
  {
    Pow2Add(bits, width);
    MulMonotone(x + 1, Pow2(bits), Pow2(width));
  }

  /** One round: when nothing wraps and the low byte is clear, shifting and overwriting is Horner's step. */
  lemma RoundValue(before: seq<bv8>, width: nat, v: bv8)
    requires before != [] && width >= 8
    requires Value(before) * Pow2(width) < Pow256(|before|)
    ensures Value(ShlN(before, width)[0 := v]) == Value(before) * Pow2(width) + v as nat
  {
    var x := Value(before) * Pow2(width);
    ShlNValue(before, width);
    DivModUnique(x, Pow256(|before|), 0, x);
    ShiftedLowByte(Value(before), width);
    ValueSetLow(ShlN(before, width), v);
  }

  lemma ByteFits(v: bv8, width: nat)
    requires width >= 8
    ensures v as nat < Pow2(width)
  {
    Pow256IsPow2(1);
    Pow2Monotone(8, width);
  }

  lemma {:induction false} RoundsCorrect(i: nat, count: nat, width: nat, v: bv8)
    requires width >= 8 && i <= count
    ensures Value(Packed(i, width, v, IrSize(count, width))) == IrFields(i, width, v as nat)
  {
    var size := IrSize(count, width);
    if i == 0 {
      ZerosValue(size);
    } else {
      var before := Packed(i - 1, width, v, size);
      RoundsCorrect(i - 1, count, width, v);
      ByteFits(v, width);
      FieldsBound(i - 1, width, v as nat);
      RoomForRound(i - 1, count, width);
      NoWrap(Value(before), width, (i - 1) * width, Pow256(size));
      assert size > 0 by { MulMonotone(1, count, width); }
      RoundValue(before, width, v);
      FieldsShift(i - 1, width, v as nat);
    }
  }

  /**
   For every device count and every one-byte value, the command holds the value
   in every field, with no bit lost at either end, exactly when the width is at
   least the eight bits that the overwrite of byte 0 takes.
   */
  lemma PackedIsFieldsIffWide(width: nat)
    ensures (forall count: nat, v: bv8 ::
               Value(Packed(count, width, v, IrSize(count, width))) == IrFields(count, width, v as nat))
            <==> width >= 8
  {
    if width >= 8 {
      forall count: nat, v: bv8
        ensures Value(Packed(count, width, v, IrSize(count, width))) == IrFields(count, width, v as nat)
      {
        RoundsCorrect(count, count, width, v);
      }
    } else {
      NarrowWidthFails(width);
    }
  }

  // ---- The exact condition ----

  /**
   When a command is packed without loss: the shift by a narrow width must leave
   nothing of the value in the byte that is overwritten, and the topmost value
   must fit the buffer.
   */
  predicate FieldsFit(count: nat, width: nat, v: bv8) {
    width >= 8 || count == 0 || (
      && (count >= 2 ==> v as nat * Pow2(width) % 256 == 0)
      && v as nat * Pow2((count - 1) * width) < Pow256(IrSize(count, width)))
  }

  /** One round on a buffer of any content, with what it loses at either end. */
  lemma RoundLoss(before: seq<bv8>, width: nat, v: bv8)
    requires before != []
    ensures var x := Value(before) * Pow2(width);
      var y := x % Pow256(|before|);
      Value(ShlN(before, width)[0 := v]) == y - y % 256 + v as nat && y <= x && (y == x <==> x < Pow256(|before|))
  {
    ShlNValue(before, width);
    ValueSetLow(ShlN(before, width), v);
    Remainder(Value(before) * Pow2(width), Pow256(|before|));
  }

  lemma Remainder(x: nat, m: nat)
    requires m > 0
    ensures x % m <= x && (x % m == x <==> x < m)
  {
    if x < m {
      DivModUnique(x, m, 0, x);
    } else {
      assert x % m < m;
      assert x / m * m >= 0;
    }
  }

  /** The low byte of a product depends only on the low byte. */
  lemma LowByteTimes(x: nat, b: nat, w: nat)
    requires x % 256 == b
    ensures x * w % 256 == b * w % 256
  {
    var q, r := b * w / 256, b * w % 256;
    assert x == x / 256 * 256 + b;
    assert x * w == x / 256 * w * 256 + b * w by {
      MulAssoc(x / 256, 256, w);
      MulAssoc(x / 256, w, 256);
    }
    DivModUnique(x * w, 256, x / 256 * w + q, r);
  }

  /** The low byte after a round is the value, whatever was there before. */
  lemma PackedLow(i: nat, width: nat, v: bv8, size: nat)
    requires i > 0 && size > 0
    ensures Value(Packed(i, width, v, size)) % 256 == v as nat
  {
    var packed := Packed(i, width, v, size);
    assert packed[0] == v;
    LowByte(v as nat, Value(packed[1..]));
  }

  /** The buffer never holds more than the fields, and falls behind for good once a round loses something. */
  lemma {:induction false} PackedBehind(i: nat, width: nat, v: bv8, size: nat)
    requires size > 0
    ensures Value(Packed(i, width, v, size)) <= IrFields(i, width, v as nat)
    ensures i > 0 ==>
      (Value(Packed(i, width, v, size)) == IrFields(i, width, v as nat) <==>
        var x := Value(Packed(i - 1, width, v, size)) * Pow2(width);
        && Value(Packed(i - 1, width, v, size)) == IrFields(i - 1, width, v as nat)
        && x < Pow256(size) && x % 256 == 0)
  {
    if i == 0 {
      ZerosValue(size);
    } else {
      PackedBehind(i - 1, width, v, size);
      FieldsShift(i - 1, width, v as nat);
      RoundLoss(Packed(i - 1, width, v, size), width, v);
      LossStep(Value(Packed(i - 1, width, v, size)), IrFields(i - 1, width, v as nat), Pow2(width), Pow256(size),
        v as nat, Value(Packed(i, width, v, size)), IrFields(i, width, v as nat));
    }
  }

  lemma LossStep(p: nat, f: nat, w: nat, cap: nat, v: nat, p': nat, f': nat)
    requires p <= f && w > 0 && cap > 0 && f' == f * w + v
    requires var y := p * w % cap; p' == y - y % 256 + v
    requires p * w % cap <= p * w && (p * w % cap == p * w <==> p * w < cap)
    ensures p' <= f'
    ensures p' == f' <==> p == f && p * w < cap && p * w % 256 == 0
  {
    MulMonotone(p, f, w);
    if p < f {
      MulMonotone(p + 1, f, w);
    }
  }

  lemma {:induction false} FieldsLinear(count: nat, width: nat, v: nat)
    ensures IrFields(count, width, v) == v * IrFields(count, width, 1)
  {
    if count > 0 {
      FieldsLinear(count - 1, width, v);
      assert v * (IrFields(count - 1, width, 1) + Pow2((count - 1) * width)) ==
        v * IrFields(count - 1, width, 1) + v * Pow2((count - 1) * width);
    }
  }

  lemma FactorBelow(u: nat, q: nat, p: nat)
    requires u * p < q * p
    ensures u < q
  {
    if u >= q {
      MulMonotone(q, u, p);
    }
  }

  lemma ExponentBelow(u: nat, a: nat, bits: nat)
    requires u > 0 && u * Pow2(a) < Pow2(bits)
    ensures a < bits
  {
    MulMonotone(1, u, Pow2(a));
    if a >= bits {
      Pow2Monotone(bits, a);
    }
  }

  lemma TopBelow(low: nat, u: nat, p: nat, q: nat, cap: nat)
    requires low < p && u * p < cap && cap == p * q
    ensures low + u * p < cap
  {
    assert q * p == p * q;
    FactorBelow(u, q, p);
    DigitBound(low, u, p, q);
  }

  lemma {:induction false} ZeroFields(count: nat, width: nat)
    ensures IrFields(count, width, 0) == 0
  {
    if count > 0 {
      ZeroFields(count - 1, width);
    }
  }

  /** Values below the field width fit below 2^bits as soon as the topmost one does. */
  lemma FieldsBelow(count: nat, width: nat, u: nat, bits: nat)
    requires count > 0 && u < Pow2(width) && u * Pow2((count - 1) * width) < Pow2(bits)
    ensures IrFields(count, width, u) < Pow2(bits)
  {
    if u == 0 {
      ZeroFields(count, width);
    } else {
      var a := (count - 1) * width;
      ExponentBelow(u, a, bits);
      Pow2Add(a, bits - a);
      FieldsBound(count - 1, width, u);
      TopBelow(IrFields(count - 1, width, u), u, Pow2(a), Pow2(bits - a), Pow2(bits));
    }
  }

  lemma Rescale(v: nat, w: nat, u: nat, one: nat)
    requires v * w == 256 * u
    ensures v * one * w == 256 * (u * one)
  {
    MulAssoc(v, one, w);
    MulAssoc(v, w, one);
    MulAssoc(256, u, one);
  }

  /** A narrow value that leaves nothing in the low byte is a value of a whole byte further up. */
  lemma ScaledFields(count: nat, width: nat, v: nat, u: nat)
    requires v * Pow2(width) == 256 * u
    ensures IrFields(count, width, v) * Pow2(width) == 256 * IrFields(count, width, u)
  {
    FieldsLinear(count, width, v);
    FieldsLinear(count, width, u);
    Rescale(v, Pow2(width), u, IrFields(count, width, 1));
  }

  lemma QuotientInWidth(v: nat, w: nat, u: nat)
    requires v < 256 && w > 0 && v * w == 256 * u
    ensures u < w
  {
    MulMonotone(v + 1, 256, w);
    assert (v + 1) * w == v * w + w;
  }

  /** If the topmost value fits, no round loses a bit at either end. */
  lemma NothingLost(i: nat, count: nat, width: nat, v: bv8)
    requires 0 < i < count && v as nat * Pow2(width) % 256 == 0
    requires v as nat * Pow2((count - 1) * width) < Pow256(IrSize(count, width))
    ensures IrFields(i, width, v as nat) * Pow2(width) < Pow256(IrSize(count, width))
    ensures IrFields(i, width, v as nat) * Pow2(width) % 256 == 0
  {
    if v == 0 {
      ZeroFields(i, width);
    } else {
      SizePositive(count, width, v);
      NothingLostUp(i, count, width, v as nat, v as nat * Pow2(width) / 256, IrSize(count, width));
    }
  }

  lemma NothingLostUp(i: nat, count: nat, width: nat, v: nat, u: nat, size: nat)
    requires 0 < i < count && v < 256 && v * Pow2(width) == 256 * u && size > 0
    requires v * Pow2((count - 1) * width) < Pow256(size)
    ensures IrFields(i, width, v) * Pow2(width) < Pow256(size)
    ensures IrFields(i, width, v) * Pow2(width) % 256 == 0
  {
    ScaledFields(i, width, v, u);
    QuotientInWidth(v, Pow2(width), u);
    TopFits(count, width, v, u, size);
    RoomBelow(i, count, width, u, 8 * (size - 1));
    Pow256IsPow2(size - 1);
    WholeBytes(IrFields(i, width, u), Pow256(size - 1));
  }

  lemma WholeBytes(f: nat, p: nat)
    requires f < p
    ensures 256 * f < 256 * p && 256 * f % 256 == 0
  {
    DivModUnique(256 * f, 256, f, 0);
  }

  lemma FactorMonotone(u: nat, p: nat, q: nat)
    requires p <= q
    ensures u * p <= u * q
  {
  }

  /** What fits at the topmost place fits at every place below. */
  lemma RoomBelow(i: nat, count: nat, width: nat, u: nat, bits: nat)
    requires 0 < i < count && u < Pow2(width) && u * Pow2((count - 2) * width) < Pow2(bits)
    ensures IrFields(i, width, u) < Pow2(bits)
  {
    MulMonotone(i - 1, count - 2, width);
    Pow2Monotone((i - 1) * width, (count - 2) * width);
    FactorMonotone(u, Pow2((i - 1) * width), Pow2((count - 2) * width));
    FieldsBelow(i, width, u, bits);
  }

  lemma SizePositive(count: nat, width: nat, v: bv8)
    requires count > 0 && v != 0 && v as nat * Pow2((count - 1) * width) < Pow256(IrSize(count, width))
    ensures IrSize(count, width) > 0
  {
    if IrSize(count, width) == 0 {
      MulMonotone(1, v as nat, Pow2((count - 1) * width));
    }
  }

  lemma TopFits(count: nat, width: nat, v: nat, u: nat, size: nat)
    requires count >= 2 && size > 0 && v * Pow2(width) == 256 * u
    requires v * Pow2((count - 1) * width) < Pow256(size)
    ensures u * Pow2((count - 2) * width) < Pow2(8 * (size - 1))
  {
    var rest := Pow2((count - 2) * width);
    assert width + (count - 2) * width == (count - 1) * width;
    Pow2Add(width, (count - 2) * width);
    MulAssoc(v, Pow2(width), rest);
    MulAssoc(256, u, rest);
    Pow256IsPow2(size - 1);
    assert Pow256(size) == 256 * Pow256(size - 1);
  }

  lemma {:induction false} FitsAllTheWay(i: nat, count: nat, width: nat, v: bv8)
    requires 0 < i <= count && count >= 2 && IrSize(count, width) > 0
    requires v as nat * Pow2(width) % 256 == 0
    requires v as nat * Pow2((count - 1) * width) < Pow256(IrSize(count, width))
    ensures Value(Packed(i, width, v, IrSize(count, width))) == IrFields(i, width, v as nat)
  {
    var size := IrSize(count, width);
    PackedBehind(i, width, v, size);
    ZerosValue(size);
    if i > 1 {
      FitsAllTheWay(i - 1, count, width, v);
      NothingLost(i - 1, count, width, v);
    }
  }

  /** A command packed without loss fits: the last round shows it. */
  lemma FitsIfExact(count: nat, width: nat, v: bv8)
    requires count >= 2 && IrSize(count, width) > 0
    requires Value(Packed(count, width, v, IrSize(count, width))) == IrFields(count, width, v as nat)
    ensures FieldsFit(count, width, v)
  {
    var size := IrSize(count, width);
    PackedBehind(count, width, v, size);
    PackedLow(count - 1, width, v, size);
    LowByteTimes(Value(Packed(count - 1, width, v, size)), v as nat, Pow2(width));
    TopFromFields(count, width, v as nat, Pow256(size));
  }

  lemma TopFromFields(count: nat, width: nat, v: nat, cap: nat)
    requires count >= 2 && IrFields(count - 1, width, v) * Pow2(width) < cap
    ensures v * Pow2((count - 1) * width) < cap
  {
    TopField(count, width, v);
    MulMonotone(v * Pow2((count - 2) * width), IrFields(count - 1, width, v), Pow2(width));
    MulAssoc(v, Pow2((count - 2) * width), Pow2(width));
  }

  lemma TopField(count: nat, width: nat, v: nat)
    requires count >= 2
    ensures v * Pow2((count - 2) * width) <= IrFields(count - 1, width, v)
    ensures Pow2((count - 2) * width) * Pow2(width) == Pow2((count - 1) * width)
  {
    assert (count - 2) * width + width == (count - 1) * width;
    Pow2Add((count - 2) * width, width);
  }

  lemma EmptyCommand(count: nat, v: bv8)
    ensures Value(Packed(count, 0, v, IrSize(count, 0))) == IrFields(count, 0, v as nat) <==> FieldsFit(count, 0, v)
  {
    assert count * 0 == 0;
    assert IrSize(count, 0) == 0;
    ZeroWidth(count, v as nat);
    assert Packed(count, 0, v, 0) == [];
  }

  lemma {:induction false} ZeroWidth(count: nat, v: nat)
    ensures IrFields(count, 0, v) == count * v
  {
    if count > 0 {
      ZeroWidth(count - 1, v);
      assert (count - 1) * 0 == 0;
      assert count * v == (count - 1) * v + v;
    }
  }

  lemma SingleDevice(width: nat, v: bv8)
    requires 0 < width < 8
    ensures Value(Packed(1, width, v, IrSize(1, width))) == IrFields(1, width, v as nat) && FieldsFit(1, width, v)
  {
    assert IrSize(1, width) == 1;
    PackedBehind(1, width, v, 1);
    ZerosValue(1);
    assert (1 - 1) * width == 0;
  }

  /** For every count, width and value the command is packed correctly exactly when the fields fit. */
  lemma PackedExactly(count: nat, width: nat, v: bv8)
    ensures Value(Packed(count, width, v, IrSize(count, width))) == IrFields(count, width, v as nat) <==>
      FieldsFit(count, width, v)
  {
    if width >= 8 {
      RoundsCorrect(count, count, width, v);
    } else if width == 0 {
      EmptyCommand(count, v);
    } else if count == 0 {
      ZerosValue(IrSize(0, width));
    } else if count == 1 {
      SingleDevice(width, v);
    } else {
      assert IrSize(count, width) > 0 by { MulMonotone(1, count, width); }
      if FieldsFit(count, width, v) {
        FitsAllTheWay(count, count, width, v);
      } else if Value(Packed(count, width, v, IrSize(count, width))) == IrFields(count, width, v as nat) {
        FitsIfExact(count, width, v);
      }
    }
  }

  /** Two devices and value 1 already show the loss for every narrower width. */
  lemma NarrowWidthFails(width: nat)
    requires width < 8
    ensures Value(Packed(2, width, 1, IrSize(2, width))) != IrFields(2, width, 1)
  {
    var size := IrSize(2, width);
    FieldsShift(1, width, 1);
    assert IrFields(1, width, 1) == 1 by { FieldsShift(0, width, 1); }
    if size > 0 {
      var zeros, one := Repeat(size, 0 as bv8), Packed(1, width, 1, size);
      ZerosValue(size);
      ShlNValue(zeros, width);
      assert Value(ShlN(zeros, width)) == 0 by { DivModUnique(0, Pow256(size), 0, 0); }
      ValueSetLow(ShlN(zeros, width), 1);
      assert Packed(0, width, 1, size) == zeros;
      assert Value(one) == 1;
      ShlNValue(one, width);
      Pow2Monotone(width, 7);
      assert Pow2(7) == 128 by { Pow2Add(3, 4); assert Pow2(3) == 8 && Pow2(4) == 16; }
      assert Pow2(width) < Pow256(size);
      DivModUnique(Pow2(width), Pow256(size), 0, Pow2(width));
      ValueSetLow(ShlN(one, width), 1);
    }
  }

  /** The field that device k shifts into its instruction register is v. */
  lemma EveryDeviceReceives(count: nat, width: nat, v: bv8, k: nat)
    requires width >= 8 && k < count
    ensures Value(Packed(count, width, v, IrSize(count, width))) / Pow2(k * width) % Pow2(width) == v as nat
  {
    RoundsCorrect(count, count, width, v);
    ByteFits(v, width);
    FieldAt(count, width, v as nat, k);
  }

  lemma {:induction false} FieldAt(count: nat, width: nat, v: nat, k: nat)
    requires v < Pow2(width) && k < count
    ensures IrFields(count, width, v) / Pow2(k * width) % Pow2(width) == v
    decreases k
  {
    var rest := IrFields(count - 1, width, v);
    FieldsShift(count - 1, width, v);
    DivModUnique(IrFields(count, width, v), Pow2(width), rest, v);
    if k == 0 {
      assert Pow2(k * width) == 1;
    } else {
      FieldAt(count - 1, width, v, k - 1);
      Pow2Add(width, (k - 1) * width);
      assert width + (k - 1) * width == k * width;
      DivDiv(IrFields(count, width, v), Pow2(width), Pow2((k - 1) * width));
    }
  }

  /** The nested loop of jtag_test that fills ir_command, on its 2048-byte buffer. */
  method PackIr(command: array<bv8>, count: nat, width: nat, v: bv8)
    requires command.Length == MAX_TDO_SIZE
    requires count <= MAX_TAPS_SUPPORTED && width <= MAX_IR_SHIFT_SIZE
    modifies command
    ensures IrSize(count, width) <= MAX_TDO_SIZE
    ensures command[..IrSize(count, width)] == Packed(count, width, v, IrSize(count, width))
  {
    var size := IrSize(count, width);
    assert size <= MAX_TDO_SIZE by {
      MulMonotone(count, MAX_TAPS_SUPPORTED, width);
      MulMonotone(width, MAX_IR_SHIFT_SIZE, MAX_TAPS_SUPPORTED);
    }
    for z := 0 to size
      invariant forall k :: 0 <= k < z ==> command[k] == 0
    {
      command[z] := 0;
    }
    assert command[..size] == Repeat(size, 0 as bv8);
    for i := 0 to count
      invariant command[..size] == Packed(i, width, v, size)
    {
      ghost var before := command[..size];
      for j := 0 to width
        invariant command[..size] == ShlN(before, j)
      {
        ShiftLeft(command, size);
      }
      ghost var shifted := command[..size];
      command[0] := v;
      assert command[..size] == if size == 0 then shifted else shifted[0 := v];
    }
  }
}
