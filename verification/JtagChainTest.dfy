/**
 The data-register part of the JTAG test: discovery of the chain by searching
 the captured data for the overshift pattern, construction of the expected
 data, error injection and validation, over every iteration.
 */
module JtagChainTest {
  import opened Basics
  import opened JtagSizes
  import opened ScanChain

  const TEST_BYTES: nat := 128
  const PATTERN_BYTES: nat := 8
  /** uncore_discovery hands find_pattern its shift size in bits as a byte count. */
  const SEARCH_SIZE: nat := (MAX_TAPS_SUPPORTED * 4 + PATTERN_BYTES) * 8

  type Pattern = p: seq<bv8> | |p| == PATTERN_BYTES witness seq(8, _ => 0)

  // ---- Discovery ----

  predicate OccursAt(haystack: seq<bv8>, needle: seq<bv8>, i: int) {
    0 <= i && i + |needle| <= |haystack| && haystack[i..i + |needle|] == needle
  }

  /** The first place within the first `size` bytes where the needle occurs. */
  predicate FirstAt(haystack: seq<bv8>, size: nat, needle: seq<bv8>, i: int) {
    && i + |needle| <= size
    && OccursAt(haystack, needle, i)
    && (forall j :: 0 <= j < i ==> !OccursAt(haystack, needle, j))
  }

  /** find_pattern: the first match, or 0, which is also the answer when there is none. */
  method FindPattern(haystack: seq<bv8>, size: nat, needle: seq<bv8>) returns (r: nat)
    requires |needle| <= size <= |haystack|
    ensures FirstAt(haystack, size, needle, r) ||
      (r == 0 && forall j :: 0 <= j <= size - |needle| ==> !OccursAt(haystack, needle, j))
  {
    var i := 0;
    while i <= size - |needle|
      invariant i <= size - |needle| + 1
      invariant forall j :: 0 <= j < i ==> !OccursAt(haystack, needle, j)
    {
      if haystack[i..i + |needle|] == needle {
        return i;
      }
      i := i + 1;
    }
    return 0;
  }

  /** uncore_discovery on the captured data: the device count and the saved codes. */
  method Discover(tdo: seq<bv8>, pattern: Pattern) returns (ok: bool, count: nat, idcode: seq<bv8>)
    requires |tdo| == MAX_TDO_SIZE
    ensures ok <==> exists i :: FirstAt(tdo, SEARCH_SIZE, pattern, i) && 1 <= i < 4 * (MAX_TAPS_SUPPORTED + 1)
    ensures ok ==> exists i :: FirstAt(tdo, SEARCH_SIZE, pattern, i) && count == i / 4 && idcode == tdo[..4 * count]
    ensures ok ==> count <= MAX_TAPS_SUPPORTED && Reports(tdo, pattern, count, idcode)
  {
    count, idcode := 0, [];
    var found := FindPattern(tdo, SEARCH_SIZE, pattern);
    var index := found * 8;
    if index == 0 {
      return false, count, idcode;
    }
    count := index / 32;
    if count > MAX_TAPS_SUPPORTED {
      return false, count, idcode;
    }
    idcode := tdo[..4 * count];
    ok := true;
  }

  /** The outcome of discovery, as the method reports it. */
  predicate Reports(tdo: seq<bv8>, pattern: Pattern, count: nat, idcode: seq<bv8>) {
    exists i :: FirstAt(tdo, SEARCH_SIZE, pattern, i) && 1 <= i < 4 * (MAX_TAPS_SUPPORTED + 1)
      && count == i / 4 && 4 * count <= |tdo| && idcode == tdo[..4 * count]
  }

  lemma DelayedPrefix(tdo: seq<bv8>, ids: seq<bv8>, data: seq<bv8>, m: nat, p: nat)
    requires p <= |data| && |ids| + p <= m <= |tdo| && m <= |ids| + |data|
    requires tdo[..m] == (ids + data)[..m]
    ensures tdo[..|ids| + p] == ids + data[..p]
  {
    forall i | 0 <= i < |ids| + p
      ensures tdo[i] == (ids + data[..p])[i]
    {
      assert tdo[i] == tdo[..m][i] == (ids + data)[i];
    }
  }

  /**
   On a healthy chain of k devices that was shifted data beginning with the
   pattern, discovery reports exactly the k devices with their codes, if and
   only if the pattern does not show up before the data that carries it.
   */
  lemma DiscoveryExact(ids: seq<bv8>, data: seq<bv8>, tdo: seq<bv8>, pattern: Pattern, k: nat)
    requires 1 <= k <= MAX_TAPS_SUPPORTED && |ids| == 4 * k
    requires |data| == SEARCH_SIZE / 8 && data[..PATTERN_BYTES] == pattern
    requires |tdo| == MAX_TDO_SIZE && Captured(ids, data, tdo[..|data|])
    ensures Reports(tdo, pattern, k, ids) <==> forall j :: 0 <= j < 4 * k ==> !OccursAt(ids + pattern, pattern, j)
  {
    CapturedIsDelayed(ids, data, tdo[..|data|]);
    var n := 4 * k + PATTERN_BYTES;
    DelayedPrefix(tdo, ids, data, |data|, PATTERN_BYTES);
    assert forall j :: 0 <= j <= 4 * k ==> OccursAt(tdo, pattern, j) == OccursAt(ids + pattern, pattern, j) by {
      forall j | 0 <= j <= 4 * k ensures OccursAt(tdo, pattern, j) == OccursAt(ids + pattern, pattern, j) {
        assert tdo[j..j + PATTERN_BYTES] == tdo[..n][j..j + PATTERN_BYTES];
      }
    }
    assert OccursAt(tdo, pattern, 4 * k) by { assert (ids + pattern)[4 * k..n] == pattern; }
    assert tdo[..4 * k] == tdo[..n][..4 * k] == ids;
    if forall j :: 0 <= j < 4 * k ==> !OccursAt(ids + pattern, pattern, j) {
      assert FirstAt(tdo, SEARCH_SIZE, pattern, 4 * k);
    } else {
      var j :| 0 <= j < 4 * k && OccursAt(ids + pattern, pattern, j);
      assert OccursAt(tdo, pattern, j);
    }
  }

  const SAMPLE: Pattern := [0xf0, 0xde, 0xbc, 0x9a, 0x78, 0x56, 0x34, 0x12]

  /** Three devices, two of whose codes together look like the pattern: only the first is reported. */
  lemma MiscountedChain(data: seq<bv8>, tdo: seq<bv8>)
    requires |data| == SEARCH_SIZE / 8 && data[..PATTERN_BYTES] == SAMPLE && |tdo| == MAX_TDO_SIZE
    ensures var first: seq<bv8> := [1, 0, 0, 0];
      Captured(first + SAMPLE, data, tdo[..|data|]) ==>
        Reports(tdo, SAMPLE, 1, first) && !Reports(tdo, SAMPLE, 3, first + SAMPLE)
  {
    var first: seq<bv8> := [1, 0, 0, 0];
    var ids := first + SAMPLE;
    if Captured(ids, data, tdo[..|data|]) {
      CapturedIsDelayed(ids, data, tdo[..|data|]);
      DelayedPrefix(tdo, ids, data, |data|, PATTERN_BYTES);
      assert tdo[..12] == ids by { assert tdo[..12] == tdo[..20][..12]; }
      assert tdo[..4] == first by { assert tdo[..4] == tdo[..12][..4]; }
      assert tdo[4..12] == SAMPLE by { assert tdo[4..12] == tdo[..12][4..]; }
      forall j | 0 <= j < 4
        ensures !OccursAt(tdo, SAMPLE, j)
      {
        assert tdo[j] == first[j];
        assert tdo[j..j + PATTERN_BYTES][0] != SAMPLE[0];
      }
      assert FirstAt(tdo, SEARCH_SIZE, SAMPLE, 4);
    }
  }

  // ---- Expected data ----

  /** The data shifted in: whole copies of the pattern, as many as fit behind the codes. */
  function ShiftInData(count: nat, pattern: Pattern): (r: seq<bv8>)
    requires count <= MAX_TAPS_SUPPORTED
    ensures |r| == TEST_BYTES
  {
    var filled := (TEST_BYTES - 4 * count) / 8 * 8;
    seq(TEST_BYTES, k requires 0 <= k => if k < filled then pattern[k % 8] else 0)
  }

  /** What TDO must show: the codes, then the beginning of the data. */
  function ExpectedData(ids: seq<bv8>, count: nat, pattern: Pattern): seq<bv8>
    requires count <= MAX_TAPS_SUPPORTED
  {
    ids + ShiftInData(count, pattern)[..TEST_BYTES - 4 * count]
  }

  /** memcpy_s of the eight pattern bytes. */
  method CopyPattern(dst: array<bv8>, at: nat, pattern: Pattern)
    requires at + PATTERN_BYTES <= dst.Length
    modifies dst
    ensures forall k :: 0 <= k < dst.Length ==>
      dst[k] == if at <= k < at + PATTERN_BYTES then pattern[k - at] else old(dst[k])
  {
    for j := 0 to PATTERN_BYTES
      invariant forall k :: 0 <= k < dst.Length ==>
        dst[k] == if at <= k < at + j then pattern[k - at] else old(dst[k])
    {
      dst[at + j] := pattern[j];
    }
  }

  /** The bytes a buffer holds once u bytes of pattern copies start at index `from`. */
  predicate Filled(now: seq<bv8>, was: seq<bv8>, from: nat, u: nat, pattern: Pattern) {
    && |now| == |was|
    && (forall k :: 0 <= k < |now| ==>
      now[k] == if from <= k < from + u then pattern[(k - from) % 8] else was[k])
  }

  lemma FilledFurther(before: seq<bv8>, now: seq<bv8>, was: seq<bv8>, from: nat, u: nat, pattern: Pattern)
    requires u % 8 == 0 && Filled(before, was, from, u, pattern) && |now| == |before|
    requires forall k :: 0 <= k < |now| ==>
      now[k] == if from + u <= k < from + u + 8 then pattern[k - (from + u)] else before[k]
    ensures Filled(now, was, from, u + 8, pattern)
  {
    forall k | 0 <= k < |now|
      ensures now[k] == if from <= k < from + u + 8 then pattern[(k - from) % 8] else was[k]
    {
      if from + u <= k < from + u + 8 {
        assert (k - from) % 8 == k - (from + u);
      }
    }
  }

  /** One more copy of the pattern behind those already in a buffer. */
  method AppendPattern(dst: array<bv8>, from: nat, u: nat, pattern: Pattern, ghost was: seq<bv8>)
    requires u % 8 == 0 && from + u + PATTERN_BYTES <= dst.Length && Filled(dst[..], was, from, u, pattern)
    modifies dst
    ensures Filled(dst[..], was, from, u + 8, pattern)
  {
    ghost var before := dst[..];
    CopyPattern(dst, from + u, pattern);
    FilledFurther(before, dst[..], was, from, u, pattern);
  }

  /**
   The buffer-filling loop of one iteration. The first 4 * count bytes of the
   expected data hold the codes; a last half copy of the pattern is never
   written, so those bytes must still be zero from the start of the test.
   */
  method FillPattern(expected: array<bv8>, shiftIn: array<bv8>, count: nat, pattern: Pattern)
    requires expected.Length == TEST_BYTES && shiftIn.Length == TEST_BYTES && expected != shiftIn
    requires count <= MAX_TAPS_SUPPORTED
    requires count % 2 == 1 ==> forall k :: 124 <= k < TEST_BYTES ==> expected[k] == 0
    modifies expected, shiftIn
    ensures shiftIn[..] == ShiftInData(count, pattern)
    ensures expected[..] == ExpectedData(old(expected[..4 * count]), count, pattern)
    ensures count % 2 == 1 ==> forall k :: 124 <= k < TEST_BYTES ==> expected[k] == 0
  {
    ghost var was := expected[..];
    Clear(shiftIn);
    ghost var zeros := shiftIn[..];
    var u := 0;
    while u < TEST_BYTES
      invariant u % 8 == 0 && 4 * count + u <= TEST_BYTES
      invariant Filled(shiftIn[..], zeros, 0, u, pattern)
      invariant Filled(expected[..], was, 4 * count, u, pattern)
    {
      if TEST_BYTES - (4 * count + u) <= 4 {
        break;
      }
      AppendPattern(expected, 4 * count, u, pattern, was);
      AppendPattern(shiftIn, 0, u, pattern, zeros);
      u := u + 8;
    }
    assert u == (TEST_BYTES - 4 * count) / 8 * 8;
    FilledIsExpected(shiftIn[..], zeros, expected[..], was, count, u, pattern);
  }

  lemma FilledIsExpected(shiftIn: seq<bv8>, zeros: seq<bv8>, expected: seq<bv8>, was: seq<bv8>, count: nat, u: nat,
      pattern: Pattern)
    requires count <= MAX_TAPS_SUPPORTED && u == (TEST_BYTES - 4 * count) / 8 * 8
    requires |zeros| == |was| == TEST_BYTES && forall k :: 0 <= k < TEST_BYTES ==> zeros[k] == 0
    requires count % 2 == 1 ==> forall k :: 124 <= k < TEST_BYTES ==> was[k] == 0
    requires Filled(shiftIn, zeros, 0, u, pattern) && Filled(expected, was, 4 * count, u, pattern)
    ensures shiftIn == ShiftInData(count, pattern)
    ensures expected == ExpectedData(was[..4 * count], count, pattern)
    ensures count % 2 == 1 ==> forall k :: 124 <= k < TEST_BYTES ==> expected[k] == 0
  {
    var data := ExpectedData(was[..4 * count], count, pattern);
    forall k | 0 <= k < TEST_BYTES ensures expected[k] == data[k] {
      if k >= 4 * count {
        assert data[k] == ShiftInData(count, pattern)[k - 4 * count];
      }
    }
  }

  /** memset to zero. */
  method Clear(buffer: array<bv8>)
    modifies buffer
    ensures forall k :: 0 <= k < buffer.Length ==> buffer[k] == 0
  {
    for z := 0 to buffer.Length
      invariant forall k :: 0 <= k < z ==> buffer[k] == 0
    {
      buffer[z] := 0;
    }
  }

  // ---- Error injection and validation ----

  const INJECTED_BIT: nat := 5

  /** A byte with one bit flipped, counted from the top. */
  function Flip(b: bv8, bit: nat): bv8 {
    b ^ (1 << (7 - bit % 8))
  }

  /** The data after error injection; a position behind the data injects nothing. */
  function Injected(data: seq<bv8>, at: Option<nat>, bit: nat): seq<bv8> {
    if at.Some? && at.value < |data| then data[at.value := Flip(data[at.value], bit)] else data
  }

  /** inject_error. */
  method InjectError(buffer: array<bv8>, at: nat, bit: nat)
    modifies buffer
    ensures buffer[..] == Injected(old(buffer[..]), Some(at), bit)
  {
    if at < buffer.Length {
      buffer[at] := buffer[at] ^ (1 << (7 - bit % 8));
    }
  }

  /** validate_data: the byte comparison of the captured bits with the expected ones. */
  method ValidateData(expected: array<bv8>, tdo: seq<bv8>, bits: nat) returns (ok: bool)
    requires (bits + 7) / 8 <= expected.Length && (bits + 7) / 8 <= |tdo|
    ensures ok <==> expected[..(bits + 7) / 8] == tdo[..(bits + 7) / 8]
  {
    var i := 0;
    while i < (bits + 7) / 8
      invariant 0 <= i <= (bits + 7) / 8
      invariant forall k :: 0 <= k < i ==> expected[k] == tdo[k]
    {
      if expected[i] != tdo[i] {
        assert expected[..(bits + 7) / 8][i] != tdo[..(bits + 7) / 8][i];
        return false;
      }
      i := i + 1;
    }
    ok := true;
  }

  /** Between iterations the expected data hold the codes and, for an odd count, four zero bytes at the end. */
  predicate Ready(expected: seq<bv8>, ids: seq<bv8>, count: nat) {
    && |expected| == TEST_BYTES && 4 * count <= TEST_BYTES
    && expected[..4 * count] == ids
    && (count % 2 == 1 ==> forall k :: 124 <= k < TEST_BYTES ==> expected[k] == 0)
  }

  /** What one iteration sends and how it judges what it captured. */
  predicate Outcome(ids: seq<bv8>, count: nat, pattern: Pattern, inject: Option<nat>, captured: seq<bv8>,
      sent: seq<bv8>, verdict: bool)
    requires count <= MAX_TAPS_SUPPORTED
  {
    && sent == Injected(ShiftInData(count, pattern), inject, INJECTED_BIT)
    && (verdict <==> captured == ExpectedData(ids, count, pattern))
  }

  method RunIteration(expected: array<bv8>, shiftIn: array<bv8>, ids: seq<bv8>, count: nat, pattern: Pattern,
      inject: Option<nat>, captured: seq<bv8>) returns (sent: seq<bv8>, ok: bool)
    requires expected != shiftIn && shiftIn.Length == TEST_BYTES && |captured| == TEST_BYTES
    requires count <= MAX_TAPS_SUPPORTED && |ids| == 4 * count && Ready(expected[..], ids, count)
    modifies expected, shiftIn
    ensures Ready(expected[..], ids, count)
    ensures Outcome(ids, count, pattern, inject, captured, sent, ok)
  {
    assert expected[..4 * count] == ids;
    FillPattern(expected, shiftIn, count, pattern);
    assert expected[..][..4 * count] == ids;
    if inject.Some? {
      InjectError(shiftIn, inject.value, INJECTED_BIT);
    }
    sent := shiftIn[..];
    ok := ValidateData(expected, captured, 8 * TEST_BYTES);
    assert expected[..TEST_BYTES] == expected[..] && captured[..TEST_BYTES] == captured;
  }

  /**
   The data-register part of jtag_test over its iterations, each with its own
   pattern and its own captured data. Without count mode the first failing
   comparison ends the test.
   */
  method RunTest(ids: seq<bv8>, count: nat, patterns: seq<Pattern>, inject: Option<nat>, countMode: bool,
      captures: seq<seq<bv8>>) returns (sent: seq<seq<bv8>>, verdicts: seq<bool>)
    requires count <= MAX_TAPS_SUPPORTED && |ids| == 4 * count
    requires |captures| == |patterns| && forall i :: 0 <= i < |captures| ==> |captures[i]| == TEST_BYTES
    ensures |sent| == |verdicts| <= |patterns|
    ensures forall i :: 0 <= i < |verdicts| ==>
      Outcome(ids, count, patterns[i], inject, captures[i], sent[i], verdicts[i])
    ensures |verdicts| < |patterns| ==> !countMode && verdicts != [] && !verdicts[|verdicts| - 1]
    ensures !countMode ==> forall i :: 0 <= i < |verdicts| - 1 ==> verdicts[i]
  {
    var expected := new bv8[TEST_BYTES](k => if 0 <= k < |ids| then ids[k] else 0);
    var shiftIn := new bv8[TEST_BYTES];
    assert expected[..][..4 * count] == ids;
    sent, verdicts := [], [];
    for i := 0 to |patterns|
      invariant |sent| == |verdicts| == i
      invariant Ready(expected[..], ids, count)
      invariant forall j :: 0 <= j < i ==>
        Outcome(ids, count, patterns[j], inject, captures[j], sent[j], verdicts[j])
      invariant !countMode ==> forall j :: 0 <= j < i ==> verdicts[j]
    {
      var data, ok := RunIteration(expected, shiftIn, ids, count, patterns[i], inject, captures[i]);
      sent, verdicts := sent + [data], verdicts + [ok];
      if !ok && !countMode {
        break;
      }
    }
  }

  /**
   An iteration whose capture comes from a healthy chain passes exactly when no
   error was injected into the part of the data that reaches TDO within the shift.
   */
  lemma HealthyVerdict(ids: seq<bv8>, count: nat, pattern: Pattern, inject: Option<nat>, captured: seq<bv8>,
      sent: seq<bv8>, verdict: bool)
    requires count <= MAX_TAPS_SUPPORTED && |ids| == 4 * count
    ensures Outcome(ids, count, pattern, inject, captured, sent, verdict) && Captured(ids, sent, captured) ==>
      (verdict <==> inject.None? || inject.value >= TEST_BYTES - 4 * count)
  {
    CapturedIsDelayed(ids, sent, captured);
    DelayedVerdict(ids, count, pattern, inject);
  }

  lemma DelayedVerdict(ids: seq<bv8>, count: nat, pattern: Pattern, inject: Option<nat>)
    requires count <= MAX_TAPS_SUPPORTED && |ids| == 4 * count
    ensures (ids + Injected(ShiftInData(count, pattern), inject, INJECTED_BIT))[..TEST_BYTES] ==
        ExpectedData(ids, count, pattern)
       <==> inject.None? || inject.value >= TEST_BYTES - 4 * count
  {
    var data, n := ShiftInData(count, pattern), TEST_BYTES - 4 * count;
    var seen := (ids + Injected(data, inject, INJECTED_BIT))[..TEST_BYTES];
    assert seen == ids + Injected(data, inject, INJECTED_BIT)[..n];
    if inject.Some? && inject.value < n {
      var p := inject.value;
      FlipChanges(data[p], INJECTED_BIT);
      assert seen[4 * count + p] == Flip(data[p], INJECTED_BIT);
      assert ExpectedData(ids, count, pattern)[4 * count + p] == data[p];
    } else {
      assert Injected(data, inject, INJECTED_BIT)[..n] == data[..n];
    }
  }

  /** Exactly one bit is flipped, the one at this place from the top. */
  lemma FlipExactly(b: bv8, bit: nat)
    ensures forall j :: 0 <= j < 8 ==> BitOf(Flip(b, bit), j) == (BitOf(b, j) != (j == 7 - bit % 8))
  {
    var k := 7 - bit % 8;
    FlipAt(b, k);
  }

  lemma FlipAt(b: bv8, k: nat)
    requires k < 8
    ensures forall j :: 0 <= j < 8 ==> BitOf(b ^ (1 << k), j) == (BitOf(b, j) != (j == k))
  {
    if k < 4 {
      assert k == 0 || k == 1 || k == 2 || k == 3;
    } else {
      assert k == 4 || k == 5 || k == 6 || k == 7;
    }
  }

  lemma FlipChanges(b: bv8, bit: nat)
    ensures Flip(b, bit) != b
  {
    FlipExactly(b, bit);
    assert BitOf(Flip(b, bit), 7 - bit % 8) != BitOf(b, 7 - bit % 8);
  }

  /** Injection changes one bit of one byte; a position behind the data changes nothing. */
  lemma InjectedExactly(data: seq<bv8>, at: nat, bit: nat, k: nat, j: nat)
    requires k < |data| && j < 8
    ensures |Injected(data, Some(at), bit)| == |data|
    ensures BitOf(Injected(data, Some(at), bit)[k], j) == (BitOf(data[k], j) != (k == at && j == 7 - bit % 8))
  {
    FlipExactly(data[k], bit);
  }

  /**
   The expected data byte by byte: the codes, then copies of the pattern without
   a gap, and for an odd device count four zero bytes at the end.
   */
  lemma ExpectedBytes(ids: seq<bv8>, count: nat, pattern: Pattern, k: nat)
    requires count <= MAX_TAPS_SUPPORTED && |ids| == 4 * count && k < TEST_BYTES
    ensures |ExpectedData(ids, count, pattern)| == TEST_BYTES
    ensures ExpectedData(ids, count, pattern)[k] ==
      if k < 4 * count then ids[k]
      else if count % 2 == 1 && k >= 124 then 0
      else pattern[(k - 4 * count) % 8]
  {
    if count % 2 == 1 {
      assert (TEST_BYTES - 4 * count) / 8 * 8 == TEST_BYTES - 4 * count - 4;
    } else {
      assert (TEST_BYTES - 4 * count) / 8 * 8 == TEST_BYTES - 4 * count;
    }
  }
}
