/**
 buffer_to_hex and ASD_log_shift: a bit string held in a little-endian byte
 buffer is printed as a hexadecimal numeral, written backwards into the result.
 */
module HexText {
  import opened Basics
  import opened Bytes

  const ITOH: string := "0123456789abcdef"

  predicate IsHexDigit(c: char) { '0' <= c <= '9' || 'a' <= c <= 'f' }

  predicate IsHex(text: string) { forall k :: 0 <= k < |text| ==> IsHexDigit(text[k]) }

  /** The value of one printed digit. */
  function Digit(c: char): nat {
    if '0' <= c <= '9' then c as nat - '0' as nat
    else if 'a' <= c <= 'f' then c as nat - 'a' as nat + 10
    else 0
  }

  /** The value a reader gives to a hexadecimal numeral. */
  function HexValue(text: string): nat {
    if text == "" then 0
    else 16 * HexValue(text[..|text| - 1]) + Digit(text[|text| - 1])
  }

  function Hi(b: bv8): char { ITOH[(b >> 4) as nat] }
  function Lo(b: bv8): char { ITOH[(b & 0xf) as nat] }

  /** All digits of a byte buffer, most significant first. */
  function Digits(s: seq<bv8>): (r: string)
    ensures |r| == 2 * |s|
  {
    seq(2 * |s|, k requires 0 <= k < 2 * |s| =>
      if k % 2 == 0 then Hi(s[|s| - 1 - k / 2]) else Lo(s[|s| - 1 - k / 2]))
  }

  /** The mask for the last byte of a bit string whose length is k modulo 8. */
  function MaskFor(k: nat): bv8
    requires k < 8
  {
    if k == 0 then 0x00 else if k == 1 then 0x01 else if k == 2 then 0x03 else if k == 3 then 0x07
    else if k == 4 then 0x0f else if k == 5 then 0x1f else if k == 6 then 0x3f else 0x7f
  }

  function LastMask(bits: nat): bv8 {
    MaskFor(bits % 8)
  }

  /** The buffer with the bits of its last byte beyond `bits` zeroed. */
  function Masked(bits: nat, s: seq<bv8>): (r: seq<bv8>)
    ensures |r| == |s|
  {
    if s == [] || bits % 8 == 0 then s
    else s[|s| - 1 := s[|s| - 1] & LastMask(bits)]
  }

  /** Whether the numeral loses its first digit, which happens only when that digit is zero. */
  predicate DropsLeadingZero(bits: nat, s: seq<bv8>) {
    s != [] && LastMask(bits) != 0 && (s[|s| - 1] & LastMask(bits)) >> 4 == 0
  }

  /** The text that buffer_to_hex writes from index 0. */
  function Numeral(bits: nat, s: seq<bv8>): string {
    var all := Digits(Masked(bits, s));
    if DropsLeadingZero(bits, s) then all[1..] else all
  }

  lemma NibbleDigits(b: bv8)
    ensures Digit(Hi(b)) == (b >> 4) as nat && Digit(Lo(b)) == (b & 0xf) as nat
    ensures IsHexDigit(Hi(b)) && IsHexDigit(Lo(b))
  {
    ItohDigit((b >> 4) as nat);
    ItohDigit((b & 0xf) as nat);
  }

  lemma ItohDigit(x: nat)
    requires x < 16
    ensures Digit(ITOH[x]) == x && IsHexDigit(ITOH[x])
  {
  }

  lemma ByteNibbles(b: bv8)
    ensures 16 * (b >> 4) as nat + (b & 0xf) as nat == b as nat
  {
  }

  lemma DigitsUnfold(s: seq<bv8>)
    requires s != []
    ensures Digits(s) == Digits(s[1..]) + [Hi(s[0]), Lo(s[0])]
  {
    var t := Digits(s[1..]) + [Hi(s[0]), Lo(s[0])];
    forall k | 0 <= k < 2 * |s| ensures Digits(s)[k] == t[k] {
      if k < 2 * |s| - 2 {
        assert s[1..][|s| - 2 - k / 2] == s[|s| - 1 - k / 2];
      }
    }
  }

  lemma HexAppend(text: string, a: char, b: char)
    ensures HexValue(text + [a, b]) == 256 * HexValue(text) + 16 * Digit(a) + Digit(b)
  {
    var t := text + [a, b];
    assert t[..|t| - 1] == text + [a];
    assert (text + [a])[..|text|] == text;
  }

  /** The digits of a buffer denote its little-endian value. */
  lemma {:induction false} DigitsValue(s: seq<bv8>)
    ensures HexValue(Digits(s)) == Value(s)
  {
    if s != [] {
      DigitsUnfold(s);
      DigitsValue(s[1..]);
      HexAppend(Digits(s[1..]), Hi(s[0]), Lo(s[0]));
      NibbleDigits(s[0]);
      ByteNibbles(s[0]);
    }
  }

  lemma {:induction false} LeadingZero(text: string)
    requires text != "" && text[0] == '0'
    ensures HexValue(text[1..]) == HexValue(text)
  {
    if |text| > 1 {
      var init := text[..|text| - 1];
      LeadingZero(init);
      assert init[1..] == text[1..][..|text| - 2];
    } else {
      assert text[..0] == "";
    }
  }

  lemma SmallPowers()
    ensures Pow2(1) == 2 && Pow2(2) == 4 && Pow2(3) == 8 && Pow2(4) == 16
    ensures Pow2(5) == 32 && Pow2(6) == 64 && Pow2(7) == 128 && Pow2(8) == 256
  {
    Pow256IsPow2(1);
    assert Pow2(3) == 8 && Pow2(6) == 8 * Pow2(3);
  }

  /** A byte splits into the bits above and below each position. */
  lemma SplitLow(b: bv8)
    ensures (b >> 1) as nat * 2 + (b & 0x01) as nat == b as nat
    ensures (b >> 2) as nat * 4 + (b & 0x03) as nat == b as nat
    ensures (b >> 3) as nat * 8 + (b & 0x07) as nat == b as nat
    ensures (b >> 4) as nat * 16 + (b & 0x0f) as nat == b as nat
    ensures b & 0x01 < 2 && b & 0x03 < 4 && b & 0x07 < 8 && b & 0x0f < 16
  {
  }

  lemma SplitHigh(b: bv8)
    ensures (b >> 5) as nat * 32 + (b & 0x1f) as nat == b as nat
    ensures (b >> 6) as nat * 64 + (b & 0x3f) as nat == b as nat
    ensures (b >> 7) as nat * 128 + (b & 0x7f) as nat == b as nat
    ensures b & 0x1f < 32 && b & 0x3f < 64 && b & 0x7f < 128
  {
  }

  /** The shift by which the source computes the mask. */
  lemma MaskByShift(k: nat)
    requires k < 8
    ensures 0xff >> (8 - k) == MaskFor(k)
  {
  }

  lemma MaskIsRemainder(x: nat, masked: nat, above: nat, p: nat)
    requires masked < p && above * p + masked == x
    ensures masked == x % p
  {
    DivModUnique(x, p, above, masked);
  }

  /** Masking a byte keeps its low k bits. */
  lemma MaskByte(b: bv8, k: nat)
    requires 0 < k < 8
    ensures (b & MaskFor(k)) as nat == b as nat % Pow2(k)
  {
    if k <= 4 {
      MaskByteLow(b, k, MaskFor(k));
    } else {
      MaskByteHigh(b, k, MaskFor(k));
    }
  }

  lemma MaskByteLow(b: bv8, k: nat, mask: bv8)
    requires 1 <= k <= 4
    requires mask == if k == 1 then 0x01 else if k == 2 then 0x03 else if k == 3 then 0x07 else 0x0f
    ensures (b & mask) as nat == b as nat % Pow2(k)
  {
    SmallPowers();
    SplitLow(b);
    if k == 1 {
      MaskIsRemainder(b as nat, (b & 0x01) as nat, (b >> 1) as nat, 2);
    } else if k == 2 {
      MaskIsRemainder(b as nat, (b & 0x03) as nat, (b >> 2) as nat, 4);
    } else if k == 3 {
      MaskIsRemainder(b as nat, (b & 0x07) as nat, (b >> 3) as nat, 8);
    } else {
      MaskIsRemainder(b as nat, (b & 0x0f) as nat, (b >> 4) as nat, 16);
    }
  }

  lemma MaskByteHigh(b: bv8, k: nat, mask: bv8)
    requires 5 <= k <= 7
    requires mask == if k == 5 then 0x1f else if k == 6 then 0x3f else 0x7f
    ensures (b & mask) as nat == b as nat % Pow2(k)
  {
    SmallPowers();
    SplitHigh(b);
    if k == 5 {
      MaskIsRemainder(b as nat, (b & 0x1f) as nat, (b >> 5) as nat, 32);
    } else if k == 6 {
      MaskIsRemainder(b as nat, (b & 0x3f) as nat, (b >> 6) as nat, 64);
    } else {
      MaskIsRemainder(b as nat, (b & 0x7f) as nat, (b >> 7) as nat, 128);
    }
  }

  /** Taking a two-digit number modulo p * w keeps the low digit and the high digit modulo w. */
  lemma TopDigitMod(low: nat, top: nat, p: nat, w: nat)
    requires low < p && w > 0
    ensures p * w > 0 && (low + p * top) % (p * w) == low + p * (top % w)
  {
    var q, r := top / w, top % w;
    MulAssoc(p, q, w);
    assert p * (q * w + r) == q * (p * w) + p * r;
    DigitBound(low, r, p, w);
    DivModUnique(low + p * top, p * w, q, low + p * r);
  }

  /** The last byte as it is printed. */
  function MaskTop(bits: nat, last: bv8): bv8 {
    if bits % 8 == 0 then last else last & LastMask(bits)
  }

  lemma MaskTopValue(bits: nat, last: bv8, full: nat, k: nat)
    requires bits == 8 * full + k && 0 < k <= 8
    ensures MaskTop(bits, last) as nat == last as nat % Pow2(k)
  {
    LowBits(bits, full, k);
    if k == 8 {
      WholeByte(last as nat);
    } else {
      MaskByte(last, k);
    }
  }

  lemma LowBits(bits: nat, full: nat, k: nat)
    requires bits == 8 * full + k && k <= 8
    ensures bits % 8 == if k == 8 then 0 else k
  {
  }

  lemma WholeByte(b: nat)
    requires b < 256
    ensures b == b % Pow2(8)
  {
    SmallPowers();
  }

  lemma MaskedTop(bits: nat, init: seq<bv8>, last: bv8)
    ensures Masked(bits, init + [last]) == init + [MaskTop(bits, last)]
  {
  }

  /** The masked buffer is the buffer modulo 2^bits, when the bits reach into its last byte. */
  lemma MaskedValue(bits: nat, s: seq<bv8>)
    requires s != [] && 8 * (|s| - 1) < bits <= 8 * |s|
    ensures Value(Masked(bits, s)) == Value(s) % Pow2(bits)
  {
    var init, last := s[..|s| - 1], s[|s| - 1];
    assert s == init + [last];
    MaskedTop(bits, init, last);
    MaskedConcat(bits, init, last, bits - 8 * |init|);
  }

  lemma MaskedConcat(bits: nat, init: seq<bv8>, last: bv8, k: nat)
    requires bits == 8 * |init| + k && 0 < k <= 8
    ensures Value(init + [MaskTop(bits, last)]) == Value(init + [last]) % Pow2(bits)
  {
    var top := MaskTop(bits, last);
    ValueTop(init, last);
    ValueTop(init, top);
    assert top as nat == last as nat % Pow2(k) by { MaskTopValue(bits, last, |init|, k); }
    ValueBound(init);
    CapacityTimes(|init|, k, bits);
    TopDigitMod(Value(init), last as nat, Pow256(|init|), Pow2(k));
  }

  lemma CapacityTimes(n: nat, k: nat, bits: nat)
    requires bits == 8 * n + k
    ensures Pow2(bits) == Pow256(n) * Pow2(k)
  {
    Pow256IsPow2(n);
    Pow2Add(8 * n, k);
  }

  /** A dropped digit is a leading zero. */
  lemma DroppedDigit(bits: nat, s: seq<bv8>)
    requires DropsLeadingZero(bits, s)
    ensures Digits(Masked(bits, s))[0] == '0'
  {
    assert bits % 8 != 0;
    assert Masked(bits, s)[|s| - 1] == s[|s| - 1] & LastMask(bits);
  }

  /** The printed numeral denotes the buffer's value modulo 2^bits. */
  lemma NumeralValue(bits: nat, s: seq<bv8>)
    requires s != [] && 8 * (|s| - 1) < bits <= 8 * |s|
    ensures HexValue(Numeral(bits, s)) == Value(s) % Pow2(bits)
    ensures 2 * |s| - 1 <= |Numeral(bits, s)| <= 2 * |s|
  {
    var all := Digits(Masked(bits, s));
    DigitsValue(Masked(bits, s));
    MaskedValue(bits, s);
    if DropsLeadingZero(bits, s) {
      DroppedDigit(bits, s);
      LeadingZero(all);
    }
  }

  /** The number of digits: two a byte, but a partial last byte below 16 has only one. */
  function DigitCount(bits: nat, value: nat): int {
    var n := (bits + 7) / 8;
    2 * n - if n > 0 && bits % 8 != 0 && value < 16 * Pow256(n - 1) then 1 else 0
  }

  /** The printed numeral has exactly that many digits. */
  lemma NumeralLength(bits: nat, s: seq<bv8>)
    requires s != [] && 8 * (|s| - 1) < bits <= 8 * |s|
    ensures |Numeral(bits, s)| == DigitCount(bits, Value(s) % Pow2(bits))
  {
    var init, last := s[..|s| - 1], s[|s| - 1];
    assert s == init + [last];
    RoundedUp(bits, |s|);
    MaskedValue(bits, s);
    MaskedTop(bits, init, last);
    ValueTop(init, MaskTop(bits, last));
    ValueBound(init);
    TopBelow16(Value(init), MaskTop(bits, last) as nat, Pow256(|init|));
    MaskNonzero(bits % 8);
    HighNibble(MaskTop(bits, last));
  }

  lemma MaskNonzero(k: nat)
    requires k < 8
    ensures MaskFor(k) != 0 <==> k != 0
  {
  }

  lemma HighNibble(b: bv8)
    ensures b >> 4 == 0 <==> b as nat < 16
  {
    ByteNibbles(b);
  }

  lemma TopBelow16(low: nat, top: nat, p: nat)
    requires low < p
    ensures low + p * top < 16 * p <==> top < 16
  {
    if top < 16 {
      MulMonotone(top + 1, 16, p);
    } else {
      MulMonotone(16, top, p);
    }
  }

  /** The two digits of byte i, counted from the end of the text. */
  lemma DigitsAt(s: seq<bv8>, i: nat)
    requires i < |s|
    ensures Digits(s)[2 * (|s| - i) - 1] == Lo(s[i])
    ensures Digits(s)[2 * (|s| - i) - 2] == Hi(s[i])
  {
    var k := 2 * (|s| - i) - 1;
    assert |s| - 1 - k / 2 == i && |s| - 1 - (k - 1) / 2 == i;
  }

  lemma OnlyHexDigits(s: seq<bv8>, k: nat)
    requires k < 2 * |s|
    ensures IsHexDigit(Digits(s)[k])
  {
    var i := |s| - 1 - k / 2;
    DigitsAt(s, i);
    NibbleDigits(s[i]);
    assert k == 2 * (|s| - i) - 2 || k == 2 * (|s| - i) - 1;
  }

  lemma NumeralIsHex(bits: nat, s: seq<bv8>)
    ensures IsHex(Numeral(bits, s))
  {
    forall k | 0 <= k < |Numeral(bits, s)| ensures IsHexDigit(Numeral(bits, s)[k]) {
      OnlyHexDigits(Masked(bits, s), if DropsLeadingZero(bits, s) then k + 1 else k);
    }
  }

  lemma MaskedAt(bits: nat, s: seq<bv8>, i: nat)
    requires i < |s|
    ensures Masked(bits, s)[i] == s[i] & (if i + 1 == |s| && bits % 8 != 0 then LastMask(bits) else 0xff)
  {
  }

  /** The two writes of one byte: the second only while the index is not negative. */
  method PutByte(result: array<char>, index: nat, b: bv8) returns (next: int)
    requires index < result.Length
    modifies result
    ensures next == if index > 0 then index - 2 else -1
    ensures result[index] == Lo(b) && (index > 0 ==> result[index - 1] == Hi(b))
    ensures forall k :: 0 <= k < result.Length && k != index && k != index - 1 ==> result[k] == old(result[k])
  {
    next := index;
    result[next] := Lo(b);
    next := next - 1;
    if next >= 0 {
      result[next] := Hi(b);
      next := next - 1;
    }
  }

  /** The byte that the loop of buffer_to_hex prints in round i. */
  function Printed(bits: nat, lastMask: bv8, s: seq<bv8>, i: nat): bv8
    requires i < |s|
  {
    s[i] & (if i + 1 == |s| && bits % 8 != 0 then lastMask else 0xff)
  }

  /** Whether a text holds the digits of every printed byte, the last byte's first. */
  ghost predicate Shows(all: string, bits: nat, lastMask: bv8, s: seq<bv8>) {
    && |all| == 2 * |s|
    && forall i :: 0 <= i < |s| ==>
      && all[2 * (|s| - i) - 1] == Lo(Printed(bits, lastMask, s, i))
      && all[2 * (|s| - i) - 2] == Hi(Printed(bits, lastMask, s, i))
  }

  /** One round of the loop of buffer_to_hex. */
  method PutPrinted(bits: nat, lastMask: bv8, s: seq<bv8>, i: nat, result: array<char>, index: nat, ghost all: string)
    returns (next: int)
    requires i < |s| && Shows(all, bits, lastMask, s) && index < result.Length
    modifies result
    ensures next == if index > 0 then index - 2 else -1
    ensures result[index] == all[2 * (|s| - i) - 1] && (index > 0 ==> result[index - 1] == all[2 * (|s| - i) - 2])
    ensures forall k :: 0 <= k < result.Length && k != index && k != index - 1 ==> result[k] == old(result[k])
  {
    var mask: bv8 := 0xff;
    if i + 1 == |s| && bits % 8 != 0 {
      mask := lastMask;
    }
    assert s[i] & mask == Printed(bits, lastMask, s, i);
    next := PutByte(result, index, s[i] & mask);
  }

  /** The loop of buffer_to_hex: byte i goes to the two places before those of byte i - 1. */
  method PutBytes(bits: nat, lastMask: bv8, s: seq<bv8>, result: array<char>, start: int,
      ghost all: string, ghost drop: nat)
    requires 2 * |s| <= result.Length && Shows(all, bits, lastMask, s)
    requires drop <= 1 && (s == [] ==> drop == 0) && start == 2 * |s| - 1 - drop
    modifies result
    ensures forall k :: 0 <= k < result.Length ==>
      result[k] == if k < 2 * |s| - drop then all[k + drop] else old(result[k])
  {
    var n := |s|;
    var index := start;
    for i := 0 to n
      invariant index == if i < n then 2 * (n - i) - 1 - drop else -1
      invariant forall k :: 0 <= k < result.Length ==>
        result[k] == if 2 * (n - i) - drop <= k < 2 * n - drop then all[k + drop] else old(result[k])
    {
      index := PutPrinted(bits, lastMask, s, i, result, index, all);
    }
  }

  lemma PrintedDigits(bits: nat, s: seq<bv8>, i: nat)
    requires i < |s|
    ensures Digits(Masked(bits, s))[2 * (|s| - i) - 1] == Lo(Printed(bits, LastMask(bits), s, i))
    ensures Digits(Masked(bits, s))[2 * (|s| - i) - 2] == Hi(Printed(bits, LastMask(bits), s, i))
  {
    MaskedAt(bits, s, i);
    DigitsAt(Masked(bits, s), i);
  }

  lemma NumeralShows(bits: nat, s: seq<bv8>)
    ensures Shows(Digits(Masked(bits, s)), bits, LastMask(bits), s)
  {
    forall i | 0 <= i < |s|
      ensures Digits(Masked(bits, s))[2 * (|s| - i) - 1] == Lo(Printed(bits, LastMask(bits), s, i))
      ensures Digits(Masked(bits, s))[2 * (|s| - i) - 2] == Hi(Printed(bits, LastMask(bits), s, i))
    {
      PrintedDigits(bits, s, i);
    }
  }

  /** The start of buffer_to_hex: the mask of the last byte and the index of the last digit. */
  method LastIndex(bits: nat, s: seq<bv8>) returns (lastMask: bv8, index: int)
    ensures lastMask == LastMask(bits)
    ensures index == 2 * |s| - 1 - if DropsLeadingZero(bits, s) then 1 else 0
  {
    index := 2 * |s| - 1;
    MaskByShift(bits % 8);
    lastMask := 0xff >> (8 - bits % 8);
    if |s| > 0 && lastMask != 0 && (s[|s| - 1] & lastMask) >> 4 == 0 {
      index := index - 1;
    }
  }

  /** buffer_to_hex: the digits are written from the last index down. */
  method BufferToHex(bits: nat, s: seq<bv8>, result: array<char>)
    requires 2 * |s| <= result.Length
    modifies result
    ensures |Numeral(bits, s)| <= result.Length
    ensures result[..] == Numeral(bits, s) + old(result[|Numeral(bits, s)|..])
  {
    var lastMask, index := LastIndex(bits, s);
    ghost var all, drop := Digits(Masked(bits, s)), if DropsLeadingZero(bits, s) then 1 else 0;
    NumeralShows(bits, s);
    PutBytes(bits, lastMask, s, result, index, all, drop);
    TextWritten(old(result[..]), result[..], all, drop);
  }

  lemma TextWritten(before: string, after: string, all: string, drop: nat)
    requires drop <= |all| <= |before| == |after|
    requires forall k :: 0 <= k < |before| ==> after[k] == if k < |all| - drop then all[k + drop] else before[k]
    ensures after == all[drop..] + before[|all| - drop..]
  {
  }

  /** What printf's %s shows of a character array. */
  function CString(s: string): string {
    if s == "" || s[0] == '\0' then "" else [s[0]] + CString(s[1..])
  }

  lemma {:induction false} CStringOfDigits(text: string, rest: string)
    requires IsHex(text)
    requires rest != "" && rest[0] == '\0'
    ensures CString(text + rest) == text
  {
    var all := text + rest;
    if text == "" {
      assert all == rest;
    } else {
      CStringOfDigits(text[1..], rest);
      assert all[1..] == text[1..] + rest;
      assert text == [text[0]] + text[1..];
    }
  }

  /** The number of bytes that hold `bits` bits, in 32-bit unsigned arithmetic. */
  function ByteCount(bits: nat): nat {
    (bits + 7) % U32 / 8
  }

  function Min(a: nat, b: nat): nat { if a < b then a else b }

  /** The value of a buffer modulo 2^bits depends only on the bytes that hold those bits. */
  lemma ValueOfPrefix(s: seq<bv8>, n: nat, bits: nat)
    requires n <= |s| && bits <= 8 * n
    ensures Value(s[..n]) % Pow2(bits) == Value(s) % Pow2(bits)
  {
    var low, high := Value(s[..n]), Value(s[n..]);
    assert Value(s) == low + Pow256(n) * high by {
      assert s == s[..n] + s[n..];
      ValueConcat(s[..n], s[n..]);
    }
    assert Pow256(n) == Pow2(8 * n - bits) * Pow2(bits) by {
      Pow256IsPow2(n);
      Pow2Add(8 * n - bits, bits);
    }
    HighPartMultiple(low, high, Pow2(8 * n - bits), Pow2(bits));
  }

  lemma HighPartMultiple(low: nat, high: nat, a: nat, m: nat)
    requires m > 0
    ensures (low + a * m * high) % m == low % m
  {
    assert a * m * high == a * high * m;
    AddMultiple(low, a * high, m);
  }

  lemma AddMultiple(x: nat, q: nat, m: nat)
    requires m > 0
    ensures (x + q * m) % m == x % m
  {
    assert (x / m + q) * m == x / m * m + q * m;
    DivModUnique(x + q * m, m, x / m + q, x % m);
  }

  const HALF: nat := 0x8000_0000

  /** The size computed for the result: twice the buffer's, in 32-bit unsigned arithmetic. */
  function ResultSize(size: nat): nat {
    2 * size % U32
  }

  /** Whether the doubled size keeps room for the digits of n bytes. */
  predicate HasRoom(n: nat, size: nat) {
    size < HALF || n <= size - HALF
  }

  /**
   The digits stay inside the allocation and leave its terminating zero exactly
   when the doubled size does not wrap or still covers the printed bytes. With
   one byte more they just fit without a terminator if the first digit is dropped.
   */
  lemma WritesStayInside(bits: nat, s: seq<bv8>, size: nat)
    requires |s| <= size < U32
    ensures |Numeral(bits, s)| <= ResultSize(size) <==> HasRoom(|s|, size)
    ensures |Numeral(bits, s)| <= ResultSize(size) + 1 <==>
      HasRoom(|s|, size) || (|s| == size - HALF + 1 && DropsLeadingZero(bits, s))
  {
    DoubledSize(size);
  }

  lemma DoubledSize(size: nat)
    requires size < U32
    ensures ResultSize(size) == if size < HALF then 2 * size else 2 * (size - HALF)
  {
  }

  /** Eight bytes of a two-gigabyte buffer: sixteen digits go into an allocation of one byte. */
  lemma OverrunExample(s: seq<bv8>)
    requires |s| == 8
    ensures ResultSize(HALF) + 1 == 1 && |Numeral(64, s)| == 16
  {
    DoubledSize(HALF);
    assert 64 % 8 == 0 && LastMask(64) == 0;
  }

  /** The zeroed result buffer of ASD_log_shift, filled and read back as a C string. */
  method HexString(bits: nat, s: seq<bv8>, resultSize: nat) returns (text: string)
    requires 2 * |s| <= resultSize && (s == [] || 8 * (|s| - 1) < bits <= 8 * |s|)
    ensures IsHex(text) && 2 * |s| - 1 <= |text| <= 2 * |s|
    ensures s != [] ==> HexValue(text) == Value(s) % Pow2(bits)
    ensures s != [] ==> |text| == DigitCount(bits, Value(s) % Pow2(bits))
  {
    var result := new char[resultSize + 1](_ => '\0');
    ghost var numeral := Numeral(bits, s);
    BufferToHex(bits, s, result);
    ghost var zeros := result[|numeral|..];
    assert result[..] == numeral + zeros;
    NumeralIsHex(bits, s);
    CStringOfDigits(numeral, zeros);
    text := CString(result[..]);
    if s != [] {
      NumeralValue(bits, s);
      NumeralLength(bits, s);
    }
  }

  lemma ByteCountRange(bits: nat)
    requires 0 < bits < U32
    ensures if bits <= U32 - 8 then 8 * (ByteCount(bits) - 1) < bits <= 8 * ByteCount(bits) else ByteCount(bits) == 0
    ensures bits <= U32 - 8 ==> ByteCount(bits) == (bits + 7) / 8
  {
  }

  lemma RoundedUp(bits: nat, n: nat)
    requires 8 * (n - 1) < bits <= 8 * n
    ensures (bits + 7) / 8 == n
  {
  }

  /** What ASD_log_shift does: nothing, a text for some number of bits, or digits and terminator that do not fit. */
  datatype Shown = Nothing | Text(text: string, bits: nat) | Overrun

  /** The number of bytes printed. */
  function PrintedBytes(bits: nat, size: nat): nat {
    Min(ByteCount(bits), size)
  }

  /**
   ASD_log_shift with logging enabled, for every bit count and buffer that its
   32-bit parameters can describe. Bit counts within 7 of the 32-bit limit wrap
   to a byte count of zero and print an empty numeral. The code does not look
   whether the allocation is large enough; Overrun stands for the rest of a run
   in which it is not.
   */
  method LogShift(bits: nat, buffer: seq<bv8>) returns (shown: Shown)
    requires bits < U32 && |buffer| < U32
    ensures shown.Nothing? <==> bits == 0 || buffer == []
    ensures shown.Overrun? <==> bits > 0 && buffer != [] && !HasRoom(PrintedBytes(bits, |buffer|), |buffer|)
    ensures shown.Text? && bits > U32 - 8 ==> shown.text == ""
    ensures shown.Text? && bits <= U32 - 8 ==>
      && shown.bits == Min(bits, 8 * |buffer|)
      && HexValue(shown.text) == Value(buffer) % Pow2(shown.bits)
      && IsHex(shown.text)
      && |shown.text| == DigitCount(shown.bits, Value(buffer) % Pow2(shown.bits))
  {
    if buffer == [] || bits == 0 {
      return Nothing;
    }
    var n, shownBits := ByteCount(bits), bits;
    ByteCountRange(bits);
    if n > |buffer| {
      n := |buffer|;
      shownBits := n * 8;
    }
    DoubledSize(|buffer|);
    if 2 * n > ResultSize(|buffer|) {
      return Overrun;
    }
    var text := HexString(shownBits, buffer[..n], ResultSize(|buffer|));
    shown := Text(text, shownBits);
    if n > 0 {
      ValueOfPrefix(buffer, n, shownBits);
      RoundedUp(shownBits, n);
    }
  }
}
