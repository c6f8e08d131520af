/**
 The manual mode of the JTAG test: the captured TDO buffer is printed and shifted
 right once per device, then the overshift pattern is printed.
 */
module ManualDump {
  import opened JtagSizes
  import opened Bytes
  import opened ByteShift
  import opened HexText

  const PATTERN_BITS: nat := 64

  /** Shifting a buffer that already holds x / 2^a right by b bits. */
  lemma ShiftFurther(x: nat, a: nat, b: nat)
    ensures x / Pow2(a) / Pow2(b) == x / Pow2(a + b)
  {
    Pow2Add(a, b);
    DivDiv(x, Pow2(a), Pow2(b));
  }

  /** d calls of shift_right. */
  method ShiftRightBy(tdo: array<bv8>, d: nat)
    modifies tdo
    ensures Value(tdo[..]) == Value(old(tdo[..])) / Pow2(d)
  {
    ghost var was := tdo[..];
    for j := 0 to d
      invariant tdo[..] == ShrN(was, j)
    {
      assert tdo[..tdo.Length] == tdo[..];
      ShiftRight(tdo, tdo.Length);
      assert tdo[..tdo.Length] == tdo[..];
    }
    ShrNValue(was, d);
  }

  /**
   The text printed for device i denotes bits i*d to (i+1)*d of the captured
   TDO data; the last text denotes the 64 bits after the last device. The DR
   size is at most what the TDO buffer holds, as parse_arguments enforces; a DR
   size of zero prints nothing per device.
   */
  method PrintRegisters(tdo: array<bv8>, count: nat, d: nat) returns (texts: seq<string>, overshift: string)
    requires tdo.Length == MAX_TDO_SIZE && d <= 8 * MAX_TDO_SIZE
    modifies tdo
    ensures d == 0 ==> texts == []
    ensures d > 0 ==> |texts| == count
    ensures forall i :: 0 <= i < |texts| ==>
      IsHex(texts[i]) && HexValue(texts[i]) == Value(old(tdo[..])) / Pow2(i * d) % Pow2(d)
    ensures IsHex(overshift) &&
      HexValue(overshift) == Value(old(tdo[..])) / Pow2(count * d) % Pow2(PATTERN_BITS)
  {
    ghost var x := Value(tdo[..]);
    texts := [];
    for i := 0 to count
      invariant |texts| == if d == 0 then 0 else i
      invariant Value(tdo[..]) == x / Pow2(i * d)
      invariant forall k :: 0 <= k < |texts| ==>
        IsHex(texts[k]) && HexValue(texts[k]) == x / Pow2(k * d) % Pow2(d)
    {
      var shown := LogShift(d, tdo[..]);
      if shown.Text? {
        texts := texts + [shown.text];
      }
      ShiftRightBy(tdo, d);
      ShiftFurther(x, i * d, d);
      assert i * d + d == (i + 1) * d;
    }
    var shown := LogShift(PATTERN_BITS, tdo[..]);
    overshift := shown.text;
  }
}
