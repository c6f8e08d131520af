/**
 A scan chain as a delay line. Each device contributes a 32-bit identification
 register (clause 12 of IEEE Std 1149.1); in Shift-DR every clock moves the
 chain one bit towards TDO and takes one bit from TDI.
 */
module ScanChain {

  /** Bit j of a byte, counted from the least significant, which is shifted first. */
  predicate BitOf(b: bv8, j: nat)
    requires j < 8
  {
    if j == 0 then b & 0x01 != 0 else if j == 1 then b & 0x02 != 0
    else if j == 2 then b & 0x04 != 0 else if j == 3 then b & 0x08 != 0
    else if j == 4 then b & 0x10 != 0 else if j == 5 then b & 0x20 != 0
    else if j == 6 then b & 0x40 != 0 else b & 0x80 != 0
  }

  /** The bits of a byte buffer in the order in which they are shifted. */
  function Bits(s: seq<bv8>): (r: seq<bool>)
    ensures |r| == 8 * |s|
  {
    seq(8 * |s|, k requires 0 <= k < 8 * |s| => BitOf(s[k / 8], k % 8))
  }

  /** One clock after another: the bit at TDO leaves, the bit at TDI enters. */
  function ScanOut(chain: seq<bool>, tdi: seq<bool>): (r: seq<bool>)
    ensures |r| == |tdi|
    decreases |tdi|
  {
    if tdi == [] then []
    else
      var line := chain + [tdi[0]];
      [line[0]] + ScanOut(line[1..], tdi[1..])
  }

  /** The bytes captured at TDO while `data` is shifted into a chain holding `ids`. */
  predicate Captured(ids: seq<bv8>, data: seq<bv8>, tdo: seq<bv8>) {
    |tdo| == |data| && Bits(tdo) == ScanOut(Bits(ids), Bits(data))
  }

  /** What leaves a delay line is its content followed by what entered it. */
  lemma {:induction false} ScanOutIsDelay(chain: seq<bool>, tdi: seq<bool>)
    ensures ScanOut(chain, tdi) == (chain + tdi)[..|tdi|]
    decreases |tdi|
  {
    if tdi != [] {
      var line := chain + [tdi[0]];
      ScanOutIsDelay(line[1..], tdi[1..]);
      assert chain + tdi == line + tdi[1..];
      assert (line + tdi[1..])[1..] == line[1..] + tdi[1..];
    }
  }

  lemma BitsConcat(a: seq<bv8>, b: seq<bv8>)
    ensures Bits(a + b) == Bits(a) + Bits(b)
  {
    forall k | 0 <= k < 8 * |a + b| ensures Bits(a + b)[k] == (Bits(a) + Bits(b))[k] {
      if k >= 8 * |a| {
        assert k / 8 - |a| == (k - 8 * |a|) / 8 && k % 8 == (k - 8 * |a|) % 8;
      }
    }
  }

  lemma SameBits(a: bv8, b: bv8)
    requires forall j :: 0 <= j < 8 ==> BitOf(a, j) == BitOf(b, j)
    ensures a == b
  {
    assert BitOf(a, 0) == BitOf(b, 0) && BitOf(a, 1) == BitOf(b, 1);
    assert BitOf(a, 2) == BitOf(b, 2) && BitOf(a, 3) == BitOf(b, 3);
    assert BitOf(a, 4) == BitOf(b, 4) && BitOf(a, 5) == BitOf(b, 5);
    assert BitOf(a, 6) == BitOf(b, 6) && BitOf(a, 7) == BitOf(b, 7);
  }

  lemma BitsInjective(a: seq<bv8>, b: seq<bv8>)
    requires |a| == |b| && Bits(a) == Bits(b)
    ensures a == b
  {
    forall i | 0 <= i < |a| ensures a[i] == b[i] {
      forall j | 0 <= j < 8 ensures BitOf(a[i], j) == BitOf(b[i], j) {
        var k := 8 * i + j;
        assert k / 8 == i && k % 8 == j;
        assert Bits(a)[k] == Bits(b)[k];
      }
      SameBits(a[i], b[i]);
    }
  }

  /** A healthy chain delays the data by exactly its identification codes. */
  lemma CapturedIsDelayed(ids: seq<bv8>, data: seq<bv8>, tdo: seq<bv8>)
    ensures Captured(ids, data, tdo) <==> tdo == (ids + data)[..|data|]
  {
    var line := ids + data;
    ScanOutIsDelay(Bits(ids), Bits(data));
    BitsConcat(ids, data);
    PrefixBits(line, |data|);
    if Captured(ids, data, tdo) {
      BitsInjective(tdo, line[..|data|]);
    }
  }

  lemma PrefixBits(s: seq<bv8>, n: nat)
    requires n <= |s|
    ensures Bits(s[..n]) == Bits(s)[..8 * n]
  {
  }
}
