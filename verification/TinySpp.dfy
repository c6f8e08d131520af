/**
 The TinySPP command encoder of the I3C debug test: a packed header, address
 words and a variable payload written into one byte buffer, and the decoder and
 check that are applied to the response.
 */
module TinySpp {

  type u8 = x: nat | x < 0x100
  type u32 = x: nat | x < 0x1_0000_0000

  const BUFFER_SIZE_MAX: nat := 255
  const HEADER_SIZE: nat := 4

  datatype Opcode = Nop | InitializeSPEngine | UnblockSPEngine | ReadSPConfig | WriteSPConfig
    | ReadSystem | WriteSystem | WriteReadSystem | Loop

  /** A command as its callers fill it in; which fields are used depends on the opcode. */
  datatype Command = Command(opcode: Opcode, address: u32, data: seq<u32>, data8: seq<u8>,
    nextState: u8, tif: u8, bfc: u8, gtu: u8, shift: u32, tranByteCount: u8)

  /** The bit fields of struct tinySppCommandPacket. */
  datatype Header = Header(version: u8, opcode: u8, accessSpace: u8, continueOnFault: u8,
    sendResponseImmediately: u8, lastCommandPacket: u8, action: u8, tranByteCount: u8,
    spconfAddr: u8, addr: u8, payload0: u32, payload1: u32)

  function Code(op: Opcode): u8 {
    match op
    case Nop => 1
    case InitializeSPEngine => 2
    case UnblockSPEngine => 3
    case ReadSPConfig => 4
    case WriteSPConfig => 5
    case ReadSystem => 6
    case WriteSystem => 7
    case WriteReadSystem => 8
    case Loop => 9
  }

  /** Commands that carry the two fixed payload words inside a 12-byte header. */
  predicate IsLong(op: Opcode) {
    op.Nop? || op.InitializeSPEngine? || op.UnblockSPEngine?
  }

  /** tiny_spp_header_builder: the header and how many of its bytes are sent. */
  function BuildHeader(op: Opcode, tranByteCount: u8): (Header, nat) {
    match op
    case Nop => (Header(2, Code(op), 0, 0, 1, 1, 0, 0, 0, 0, 0x8877EE11, 0xA5C3C3A5), 12)
    case InitializeSPEngine => (Header(2, Code(op), 0, 0, 1, 1, 0, 0, 0, 0, 0x8877EE11, 0xA5C3C3A5), 12)
    case UnblockSPEngine => (Header(2, Code(op), 0, 0, 1, 1, 0, 0, 0, 0, 0x8877EE11, 0xA5C3C3A5), 12)
    case ReadSPConfig => (Header(2, Code(op), 0, 0, 1, 1, 0, 4, 0, 0, 0, 0), 4)
    case WriteSPConfig => (Header(2, Code(op), 0, 0, 1, 1, 0, 4, 0, 0, 0, 0), 4)
    case ReadSystem => (Header(2, Code(op), 0, 0, 1, 1, 0, 4, 0, 0, 0, 0), 4)
    case WriteSystem => (Header(2, Code(op), 0, 0, 1, 1, 0, tranByteCount, 0, 0, 0, 0), 4)
    case WriteReadSystem => (Header(2, Code(op), 0, 0, 1, 1, 0, tranByteCount, 0, 0, 0, 0), 4)
    case Loop => (Header(2, Code(op), 0, 0, 1, 1, 0, 4, 0, 0, 0, 0), 4)
  }

  /** The four bytes of a word, least significant first. */
  function WordBytes(w: u32): (r: seq<u8>)
    ensures |r| == 4
  {
    [w % 0x100, w / 0x100 % 0x100, w / 0x1_0000 % 0x100, w / 0x100_0000 % 0x100]
  }

  function WordOf(b0: u8, b1: u8, b2: u8, b3: u8): u32 {
    b0 + 0x100 * b1 + 0x1_0000 * b2 + 0x100_0000 * b3
  }

  /** The memory layout of the header: bit fields are allocated from the low bit, cut to their width. */
  function HeaderBytes(h: Header): (r: seq<u8>)
    ensures |r| == 12
  {
    [h.version % 16 + 16 * (h.opcode % 16),
     h.accessSpace % 8 + 8 * (h.continueOnFault % 2) + 16 * (h.sendResponseImmediately % 2)
       + 32 * (h.lastCommandPacket % 2) + 64 * (h.action % 4),
     h.tranByteCount % 128,
     h.spconfAddr % 4 + 4 * (h.addr % 64)] + WordBytes(h.payload0) + WordBytes(h.payload1)
  }

  /** The memory layout of struct jtagSppCommandPacket. */
  function JtagBytes(c: Command): (r: seq<u8>)
    ensures |r| == 4
  {
    [JtagByte(c.nextState, c.bfc, c.tif, c.gtu)] + WordBytes(c.shift)[..3]
  }

  function JtagByte(nextState: u8, bfc: u8, tif: u8, gtu: u8): u8 {
    nextState % 16 + 16 * (bfc % 2) + 32 * (tif % 4) + 128 * (gtu % 2)
  }

  function DataBytes(data: seq<u32>): (r: seq<u8>)
    ensures |r| == 4 * |data|
  {
    if data == [] then [] else WordBytes(data[0]) + DataBytes(data[1..])
  }

  /** The caller's data buffer holds at least as many bytes as the count says. */
  predicate HasData(c: Command) {
    c.opcode.WriteReadSystem? ==> c.tranByteCount <= |c.data8|
  }

  function Body(c: Command): seq<u8>
    requires HasData(c)
  {
    match c.opcode
    case ReadSPConfig => WordBytes(c.address)
    case WriteSPConfig => WordBytes(c.address) + DataBytes(c.data)
    case WriteSystem => JtagBytes(c)
    case WriteReadSystem => JtagBytes(c) + c.data8[..c.tranByteCount]
    case _ => []
  }

  function HeaderPart(c: Command): (r: seq<u8>)
    ensures |r| == if IsLong(c.opcode) then 12 else 4
  {
    var (h, size) := BuildHeader(c.opcode, c.tranByteCount);
    HeaderBytes(h)[..size]
  }

  /** What spp_generate_payload puts into the buffer. */
  function Encode(c: Command): seq<u8>
    requires HasData(c)
  {
    HeaderPart(c) + Body(c)
  }

  // ---- What a packet says ----

  /** The content of a packet, with every field cut to the width it has on the wire. */
  datatype Packet =
    | Plain(op: Opcode)
    | Keyed(op: Opcode, payload0: u32, payload1: u32)
    | ReadConfig(address: u32)
    | WriteConfig(address: u32, data: seq<u32>)
    | Write(count: u8, jtag: JtagFields)
    | WriteRead(count: u8, jtag: JtagFields, bytes: seq<u8>)

  datatype JtagFields = JtagFields(nextState: u8, bfc: u8, tif: u8, gtu: u8, shift: u32)

  function Fields(c: Command): JtagFields {
    JtagFields(c.nextState % 16, c.bfc % 2, c.tif % 4, c.gtu % 2, c.shift % 0x100_0000)
  }

  function Content(c: Command): Packet
    requires HasData(c)
  {
    match c.opcode
    case ReadSPConfig => ReadConfig(c.address)
    case WriteSPConfig => WriteConfig(c.address, c.data)
    case WriteSystem => Write(c.tranByteCount % 128, Fields(c))
    case WriteReadSystem => WriteRead(c.tranByteCount % 128, Fields(c), c.data8[..c.tranByteCount])
    case op => if IsLong(op) then Keyed(op, 0x8877EE11, 0xA5C3C3A5) else Plain(op)
  }

  /** A decoder written from the packet layout alone. */
  function Decode(p: seq<u8>): Packet
    requires |p| >= 4
  {
    var code := p[0] / 16;
    if code <= 3 && |p| >= 12 then
      Keyed(PlainOp(code), WordOf(p[4], p[5], p[6], p[7]), WordOf(p[8], p[9], p[10], p[11]))
    else if code == 4 && |p| >= 8 then ReadConfig(WordOf(p[4], p[5], p[6], p[7]))
    else if code == 5 && |p| >= 8 then WriteConfig(WordOf(p[4], p[5], p[6], p[7]), DecodeWords(p[8..]))
    else if code == 7 && |p| >= 8 then Write(p[2], DecodeJtag(p[4..8]))
    else if code == 8 && |p| >= 8 then WriteRead(p[2], DecodeJtag(p[4..8]), p[8..])
    else Plain(PlainOp(code))
  }

  /** The header as its layout reads: bit fields from the low bit, then two words. */
  function DecodeHeader(b: seq<u8>): Header
    requires |b| == 12
  {
    Header(b[0] % 16, b[0] / 16, b[1] % 8, b[1] / 8 % 2, b[1] / 16 % 2, b[1] / 32 % 2, b[1] / 64, b[2],
      b[3] % 4, b[3] / 4, WordOf(b[4], b[5], b[6], b[7]), WordOf(b[8], b[9], b[10], b[11]))
  }

  /** A header with every field cut to its width. */
  function Cut(h: Header): Header {
    Header(h.version % 16, h.opcode % 16, h.accessSpace % 8, h.continueOnFault % 2, h.sendResponseImmediately % 2,
      h.lastCommandPacket % 2, h.action % 4, h.tranByteCount % 128, h.spconfAddr % 4, h.addr % 64,
      h.payload0, h.payload1)
  }

  function PlainOp(code: u8): Opcode {
    if code == 2 then InitializeSPEngine else if code == 3 then UnblockSPEngine
    else if code == 6 then ReadSystem else if code == 9 then Loop else Nop
  }

  function DecodeJtag(b: seq<u8>): JtagFields
    requires |b| == 4
  {
    JtagFields(b[0] % 16, b[0] / 16 % 2, b[0] / 32 % 4, b[0] / 128, WordOf(b[1], b[2], b[3], 0))
  }

  function DecodeWords(b: seq<u8>): seq<u32> {
    if |b| < 4 then [] else [WordOf(b[0], b[1], b[2], b[3])] + DecodeWords(b[4..])
  }

  /** The bytes of a word, taken off one at a time. */
  lemma WordDigits(w: u32)
    ensures var q := w / 0x100; var q' := q / 0x100; var q'' := q' / 0x100;
      && WordBytes(w) == [w % 0x100, q % 0x100, q' % 0x100, q'']
      && w == w % 0x100 + 0x100 * (q % 0x100 + 0x100 * (q' % 0x100 + 0x100 * q''))
  {
  }

  lemma WordRoundTrip(w: u32)
    ensures var b := WordBytes(w); WordOf(b[0], b[1], b[2], b[3]) == w
    ensures var b := WordBytes(w); WordOf(b[0], b[1], b[2], 0) == w % 0x100_0000
  {
    WordDigits(w);
  }

  lemma FlagByte(access: u8, cof: u8, sri: u8, last: u8, action: u8)
    ensures var b := access % 8 + 8 * (cof % 2) + 16 * (sri % 2) + 32 * (last % 2) + 64 * (action % 4);
      && b < 0x100 && b % 8 == access % 8 && b / 8 % 2 == cof % 2 && b / 16 % 2 == sri % 2
      && b / 32 % 2 == last % 2 && b / 64 == action % 4
  {
    var low, high := access % 8 + 8 * (cof % 2), sri % 2 + 2 * (last % 2) + 4 * (action % 4);
    var b := low + 16 * high;
    assert b / 16 == high && b % 16 == low;
    assert b / 32 == last % 2 + 2 * (action % 4);
  }

  lemma NibbleByte(low: u8, high: u8)
    requires low < 16 && high < 16
    ensures (low + 16 * high) % 16 == low && (low + 16 * high) / 16 == high
  {
  }

  lemma AddressByte(low: u8, high: u8)
    requires low < 4 && high < 64
    ensures (low + 4 * high) % 4 == low && (low + 4 * high) / 4 == high
  {
  }

  lemma WordAt(b: seq<u8>, i: nat, w: u32)
    requires i + 4 <= |b| && b[i..i + 4] == WordBytes(w)
    ensures WordOf(b[i], b[i + 1], b[i + 2], b[i + 3]) == w
  {
    WordRoundTrip(w);
    var c := b[i..i + 4];
    assert b[i] == c[0] && b[i + 1] == c[1] && b[i + 2] == c[2] && b[i + 3] == c[3];
  }

  lemma BitFieldsBack(h: Header)
    ensures var b := HeaderBytes(h);
      && b[0] % 16 == h.version % 16 && b[0] / 16 == h.opcode % 16
      && b[1] % 8 == h.accessSpace % 8 && b[1] / 8 % 2 == h.continueOnFault % 2
      && b[1] / 16 % 2 == h.sendResponseImmediately % 2 && b[1] / 32 % 2 == h.lastCommandPacket % 2
      && b[1] / 64 == h.action % 4 && b[2] == h.tranByteCount % 128
      && b[3] % 4 == h.spconfAddr % 4 && b[3] / 4 == h.addr % 64
  {
    NibbleByte(h.version % 16, h.opcode % 16);
    AddressByte(h.spconfAddr % 4, h.addr % 64);
    FlagByte(h.accessSpace, h.continueOnFault, h.sendResponseImmediately, h.lastCommandPacket, h.action);
  }

  /** Reading the twelve bytes of a header back gives every field, cut to its width. */
  lemma HeaderRoundTrip(h: Header)
    ensures DecodeHeader(HeaderBytes(h)) == Cut(h)
  {
    var b := HeaderBytes(h);
    BitFieldsBack(h);
    WordAt(b, 4, h.payload0);
    WordAt(b, 8, h.payload1);
  }

  lemma HeaderFields(op: Opcode, t: u8)
    ensures var h := BuildHeader(op, t).0;
      && h.version == 2 && h.opcode == Code(op) < 16 && h.accessSpace == h.continueOnFault == h.action == 0
      && h.sendResponseImmediately == h.lastCommandPacket == 1
      && h.spconfAddr == h.addr == 0
      && (IsLong(op) ==> h.payload0 == 0x8877EE11 && h.payload1 == 0xA5C3C3A5)
      && h.tranByteCount == (if op.WriteSystem? || op.WriteReadSystem? then t else if IsLong(op) then 0 else 4)
    ensures BuildHeader(op, t).1 == if IsLong(op) then 12 else 4
  {
  }

  lemma HeaderFirstBytes(op: Opcode, t: u8)
    ensures HeaderBytes(BuildHeader(op, t).0)[0] == 2 + 16 * Code(op)
    ensures HeaderBytes(BuildHeader(op, t).0)[1] == 0x30
    ensures HeaderBytes(BuildHeader(op, t).0)[2] == BuildHeader(op, t).0.tranByteCount % 128
  {
    HeaderFields(op, t);
    FieldBytes(BuildHeader(op, t).0);
  }

  lemma FieldBytes(h: Header)
    requires h.version == 2 && h.opcode < 16 && h.accessSpace == h.continueOnFault == h.action == 0
    requires h.sendResponseImmediately == h.lastCommandPacket == 1
    ensures HeaderBytes(h)[0] == 2 + 16 * h.opcode && HeaderBytes(h)[1] == 0x30
    ensures HeaderBytes(h)[2] == h.tranByteCount % 128
    ensures HeaderBytes(h)[3] == h.spconfAddr % 4 + 4 * (h.addr % 64)
  {
  }

  /** The bytes of an encoding that tell its opcode and count. */
  lemma EncodedHeader(c: Command)
    requires HasData(c)
    ensures |HeaderPart(c)| == (if IsLong(c.opcode) then 12 else 4) && |Encode(c)| >= 4
    ensures Encode(c)[0] / 16 == Code(c.opcode) && Encode(c)[0] == 2 + 16 * Code(c.opcode)
    ensures c.opcode.WriteSystem? || c.opcode.WriteReadSystem? ==> Encode(c)[2] == c.tranByteCount % 128
  {
    HeaderFields(c.opcode, c.tranByteCount);
    HeaderFirstBytes(c.opcode, c.tranByteCount);
    var h := BuildHeader(c.opcode, c.tranByteCount).0;
    assert Encode(c)[0] == HeaderBytes(h)[0] && Encode(c)[2] == HeaderBytes(h)[2];
  }

  lemma JtagByteFields(n: u8, f: u8, t: u8, g: u8)
    ensures var b := JtagByte(n, f, t, g);
      b % 16 == n % 16 && b / 16 % 2 == f % 2 && b / 32 % 4 == t % 4 && b / 128 == g % 2
  {
    var low, mid := n % 16 + 16 * (f % 2), t % 4 + 4 * (g % 2);
    assert JtagByte(n, f, t, g) == low + 32 * mid && low < 32;
  }

  lemma JtagRoundTrip(c: Command)
    ensures DecodeJtag(JtagBytes(c)) == Fields(c)
  {
    JtagByteFields(c.nextState, c.bfc, c.tif, c.gtu);
    WordRoundTrip(c.shift);
    var b := JtagBytes(c);
    assert b[0] == JtagByte(c.nextState, c.bfc, c.tif, c.gtu);
    assert WordOf(b[1], b[2], b[3], 0) == c.shift % 0x100_0000;
  }

  lemma {:induction false} WordsRoundTrip(data: seq<u32>)
    ensures DecodeWords(DataBytes(data)) == data
  {
    if data != [] {
      WordRoundTrip(data[0]);
      WordsRoundTrip(data[1..]);
      assert DataBytes(data)[4..] == DataBytes(data[1..]);
    }
  }

  lemma DecodePlain(c: Command)
    requires HasData(c) && Content(c).Plain?
    ensures |Encode(c)| >= 4 && Decode(Encode(c)) == Content(c)
  {
    EncodedHeader(c);
  }

  lemma DecodeKeyed(c: Command)
    requires HasData(c) && Content(c).Keyed?
    ensures |Encode(c)| >= 4 && Decode(Encode(c)) == Content(c)
  {
    EncodedHeader(c);
    LongBytes(c);
  }

  /** The twelve bytes of a long command. */
  lemma LongBytes(c: Command)
    requires HasData(c) && IsLong(c.opcode)
    ensures Encode(c) ==
      [2 + 16 * Code(c.opcode), 0x30, 0, 0, 0x11, 0xEE, 0x77, 0x88, 0xA5, 0xC3, 0xC3, 0xA5]
  {
    var h := BuildHeader(c.opcode, c.tranByteCount).0;
    HeaderFields(c.opcode, c.tranByteCount);
    KeyedHeader(h);
    assert HeaderBytes(h)[..12] == HeaderBytes(h);
  }

  lemma LowKey()
    ensures WordBytes(0x8877EE11) == [0x11, 0xEE, 0x77, 0x88]
  {
  }

  lemma HighKey()
    ensures WordBytes(0xA5C3C3A5) == [0xA5, 0xC3, 0xC3, 0xA5]
  {
  }

  lemma HeaderParts(h: Header)
    ensures HeaderBytes(h) == HeaderBytes(h)[..4] + WordBytes(h.payload0) + WordBytes(h.payload1)
  {
  }

  lemma KeyedHeader(h: Header)
    requires h.version == 2 && h.opcode < 16 && h.accessSpace == h.continueOnFault == h.action == 0
    requires h.sendResponseImmediately == h.lastCommandPacket == 1
    requires h.tranByteCount == h.spconfAddr == h.addr == 0
    requires h.payload0 == 0x8877EE11 && h.payload1 == 0xA5C3C3A5
    ensures HeaderBytes(h) ==
      [2 + 16 * h.opcode, 0x30, 0, 0, 0x11, 0xEE, 0x77, 0x88, 0xA5, 0xC3, 0xC3, 0xA5]
  {
    HeaderParts(h);
    FirstFour(h);
    LowKey();
    HighKey();
  }

  /** The header of a short command: four bytes, of which the third is the count. */
  lemma ShortBytes(c: Command)
    requires HasData(c) && !IsLong(c.opcode)
    ensures |Encode(c)| >= 4
    ensures Encode(c)[..4] == [2 + 16 * Code(c.opcode), 0x30,
      if c.opcode.WriteSystem? || c.opcode.WriteReadSystem? then c.tranByteCount % 128 else 4, 0]
  {
    var h := BuildHeader(c.opcode, c.tranByteCount).0;
    HeaderFields(c.opcode, c.tranByteCount);
    FirstFour(h);
    assert Encode(c)[..4] == HeaderBytes(h)[..4];
  }

  lemma FirstFour(h: Header)
    requires h.version == 2 && h.opcode < 16 && h.accessSpace == h.continueOnFault == h.action == 0
    requires h.sendResponseImmediately == h.lastCommandPacket == 1 && h.spconfAddr == h.addr == 0
    ensures HeaderBytes(h)[..4] == [2 + 16 * h.opcode, 0x30, h.tranByteCount % 128, 0]
  {
    FieldBytes(h);
  }

  lemma DecodeConfig(c: Command)
    requires HasData(c) && (c.opcode.ReadSPConfig? || c.opcode.WriteSPConfig?)
    ensures |Encode(c)| >= 4 && Decode(Encode(c)) == Content(c)
  {
    EncodedHeader(c);
    var p, w := Encode(c), WordBytes(c.address);
    WordRoundTrip(c.address);
    assert p[4] == w[0] && p[5] == w[1] && p[6] == w[2] && p[7] == w[3];
    if c.opcode.WriteSPConfig? {
      WordsRoundTrip(c.data);
      assert p[8..] == DataBytes(c.data);
    }
  }

  lemma BodyFollows(c: Command)
    requires HasData(c) && !IsLong(c.opcode)
    ensures |Encode(c)| == 4 + |Body(c)| && Encode(c)[4..] == Body(c)
  {
    assert |HeaderPart(c)| == 4;
  }

  lemma DecodeTransfer(p: seq<u8>, c: Command)
    requires HasData(c) && c.opcode.WriteReadSystem? && |p| >= 4
    requires p[0] / 16 == 8 && p[2] == c.tranByteCount % 128
    requires p[4..] == JtagBytes(c) + c.data8[..c.tranByteCount]
    ensures Decode(p) == Content(c)
  {
    JtagRoundTrip(c);
    assert p[4..8] == p[4..][..4] == JtagBytes(c);
    assert p[8..] == p[4..][4..] == c.data8[..c.tranByteCount];
  }

  lemma DecodeWrite(p: seq<u8>, c: Command)
    requires c.opcode.WriteSystem? && |p| >= 4
    requires p[0] / 16 == 7 && p[2] == c.tranByteCount % 128 && p[4..] == JtagBytes(c)
    ensures Decode(p) == Content(c)
  {
    JtagRoundTrip(c);
    assert p[4..8] == p[4..][..4] == JtagBytes(c);
  }

  lemma DecodeSystem(c: Command)
    requires HasData(c) && (c.opcode.WriteSystem? || c.opcode.WriteReadSystem?)
    ensures |Encode(c)| >= 4 && Decode(Encode(c)) == Content(c)
  {
    EncodedHeader(c);
    BodyFollows(c);
    if c.opcode.WriteSystem? {
      DecodeWrite(Encode(c), c);
    } else {
      DecodeTransfer(Encode(c), c);
    }
  }

  /** Decoding undoes encoding up to the widths of the fields. */
  lemma DecodeEncode(c: Command)
    requires HasData(c)
    ensures |Encode(c)| >= 4 && Decode(Encode(c)) == Content(c)
  {
    match c.opcode
    case ReadSPConfig => DecodeConfig(c);
    case WriteSPConfig => DecodeConfig(c);
    case WriteSystem => DecodeSystem(c);
    case WriteReadSystem => DecodeSystem(c);
    case op =>
      if IsLong(op) {
        DecodeKeyed(c);
      } else {
        DecodePlain(c);
      }
  }

  /** Two commands have the same encoding exactly when they have the same content on the wire. */
  lemma EncodingIsFaithful(c: Command, d: Command)
    requires HasData(c) && HasData(d)
    ensures Encode(c) == Encode(d) <==> Content(c) == Content(d)
  {
    DecodeEncode(c);
    DecodeEncode(d);
    if Content(c) == Content(d) {
      SameContent(c, d);
    }
  }

  lemma SameContent(c: Command, d: Command)
    requires HasData(c) && HasData(d) && Content(c) == Content(d)
    ensures Encode(c) == Encode(d)
  {
    assert c.opcode == d.opcode;
    SameHeader(c, d);
    if c.opcode.WriteSystem? || c.opcode.WriteReadSystem? {
      SameJtag(c, d);
    }
  }

  lemma SameHeader(c: Command, d: Command)
    requires c.opcode == d.opcode
    requires c.opcode.WriteSystem? || c.opcode.WriteReadSystem? ==> c.tranByteCount % 128 == d.tranByteCount % 128
    ensures HeaderPart(c) == HeaderPart(d)
  {
    var (h, size) := BuildHeader(c.opcode, c.tranByteCount);
    var (g, _) := BuildHeader(d.opcode, d.tranByteCount);
    assert g == h.(tranByteCount := g.tranByteCount);
    SameBytes(h, g.tranByteCount);
  }

  lemma SameBytes(h: Header, count: u8)
    requires h.tranByteCount % 128 == count % 128
    ensures HeaderBytes(h.(tranByteCount := count)) == HeaderBytes(h)
  {
  }

  lemma SameJtag(c: Command, d: Command)
    requires Fields(c) == Fields(d)
    ensures JtagBytes(c) == JtagBytes(d)
  {
    Low24(c.shift, d.shift);
  }

  lemma Low24(a: u32, b: u32)
    requires a % 0x100_0000 == b % 0x100_0000
    ensures WordBytes(a)[..3] == WordBytes(b)[..3]
  {
    var x, y := WordBytes(a), WordBytes(b);
    WordRoundTrip(a);
    WordRoundTrip(b);
    Digits24(x[0], x[1], x[2], y[0], y[1], y[2]);
  }

  lemma Digits24(a: u8, b: u8, c: u8, d: u8, e: u8, f: u8)
    requires WordOf(a, b, c, 0) == WordOf(d, e, f, 0)
    ensures a == d && b == e && c == f
  {
  }

  /** Different opcodes never share an encoding: the first byte tells them apart. */
  lemma OpcodeInFirstByte(c: Command, d: Command)
    requires HasData(c) && HasData(d)
    ensures Encode(c)[0] == Encode(d)[0] <==> c.opcode == d.opcode
  {
    EncodedHeader(c);
    EncodedHeader(d);
  }

  /** Field values that fit their width on the wire. */
  predicate InRange(c: Command) {
    c.nextState < 16 && c.bfc < 2 && c.tif < 4 && c.gtu < 2 && c.shift < 0x100_0000 && c.tranByteCount < 128
  }

  /** For in-range commands nothing that the opcode uses is lost. */
  lemma InRangeIsExact(c: Command)
    ensures InRange(c) <==>
      Fields(c) == JtagFields(c.nextState, c.bfc, c.tif, c.gtu, c.shift) && c.tranByteCount % 128 == c.tranByteCount
  {
  }

  /** The data bound under which a command fits the buffer. */
  predicate Fits(c: Command) {
    (c.opcode.WriteSPConfig? ==> |c.data| <= 61) && (c.opcode.WriteReadSystem? ==> c.tranByteCount <= 247)
  }

  /** The length, and exactly when it fits the 255-byte buffer and thus the 8-bit result. */
  lemma EncodedLength(c: Command)
    requires HasData(c)
    ensures |Encode(c)| == (if IsLong(c.opcode) then 12 else 4)
      + (match c.opcode
         case ReadSPConfig => 4
         case WriteSPConfig => 4 + 4 * |c.data|
         case WriteSystem => 4
         case WriteReadSystem => 4 + c.tranByteCount
         case _ => 0)
    ensures |Encode(c)| <= BUFFER_SIZE_MAX <==> Fits(c)
  {
  }

  /** The header's count is the number of data bytes that follow exactly up to 127 bytes. */
  lemma CountField(c: Command)
    requires HasData(c) && c.opcode.WriteReadSystem?
    ensures Content(c).count == |Content(c).bytes| <==> c.tranByteCount < 128
  {
  }

  // ---- The buffer-writing code ----

  /** The loop that copies a struct's bytes to the running index. */
  method PutBytes(payload: array<u8>, u: nat, bytes: seq<u8>) returns (next: nat)
    requires u + |bytes| <= payload.Length
    modifies payload
    ensures next == u + |bytes|
    ensures payload[..] == old(payload[..u]) + bytes + old(payload[next..])
  {
    for k := 0 to |bytes|
      invariant forall j :: 0 <= j < payload.Length ==>
        payload[j] == if u <= j < u + k then bytes[j - u] else old(payload[j])
    {
      payload[u + k] := bytes[k];
    }
    next := u + |bytes|;
  }

  /** The four statements that write a word least significant byte first. */
  method PutWord(payload: array<u8>, u: nat, w: u32) returns (next: nat)
    requires u + 4 <= payload.Length
    modifies payload
    ensures next == u + 4
    ensures payload[..] == old(payload[..u]) + WordBytes(w) + old(payload[next..])
  {
    payload[u] := w % 0x100;
    payload[u + 1] := w / 0x100 % 0x100;
    payload[u + 2] := w / 0x1_0000 % 0x100;
    payload[u + 3] := w / 0x100_0000 % 0x100;
    next := u + 4;
  }

  lemma {:induction false} DataBytesSnoc(data: seq<u32>, n: nat)
    requires n < |data|
    ensures DataBytes(data[..n + 1]) == DataBytes(data[..n]) + WordBytes(data[n])
  {
    if n > 0 {
      DataBytesSnoc(data[1..], n - 1);
      assert data[..n + 1][1..] == data[1..][..n] && data[..n][1..] == data[1..][..n - 1];
    } else {
      assert data[..1][1..] == [] && data[..0] == [];
    }
  }

  /** The data loop of WriteSPConfig. */
  method PutData(payload: array<u8>, u: nat, data: seq<u32>) returns (next: nat)
    requires u + 4 * |data| <= payload.Length
    modifies payload
    ensures next == u + 4 * |data|
    ensures payload[..] == old(payload[..u]) + DataBytes(data) + old(payload[next..])
  {
    next := u;
    assert data[..0] == [];
    for n := 0 to |data|
      invariant next == u + 4 * n
      invariant payload[..] == old(payload[..u]) + DataBytes(data[..n]) + old(payload[next..])
    {
      DataBytesSnoc(data, n);
      next := PutWord(payload, next, data[n]);
    }
    assert data[..|data|] == data;
  }

  /** The branch of WriteSPConfig. */
  method PutConfig(payload: array<u8>, start: nat, address: u32, data: seq<u32>) returns (u: nat)
    requires start + 4 + 4 * |data| <= payload.Length
    modifies payload
    ensures u == start + 4 + 4 * |data|
    ensures payload[..] == old(payload[..start]) + (WordBytes(address) + DataBytes(data)) + old(payload[u..])
  {
    u := PutWord(payload, start, address);
    u := PutData(payload, u, data);
  }

  /** The branch of WriteReadSystem. */
  method PutTransfer(payload: array<u8>, start: nat, jtag: seq<u8>, data: seq<u8>) returns (u: nat)
    requires start + |jtag| + |data| <= payload.Length
    modifies payload
    ensures u == start + |jtag| + |data|
    ensures payload[..] == old(payload[..start]) + (jtag + data) + old(payload[u..])
  {
    u := PutBytes(payload, start, jtag);
    u := PutBytes(payload, u, data);
  }

  /** The part of spp_generate_payload after the header, branch by branch. */
  method PutBody(c: Command, payload: array<u8>, start: nat) returns (u: nat)
    requires HasData(c) && start + |Body(c)| <= payload.Length
    modifies payload
    ensures u == start + |Body(c)|
    ensures payload[..] == old(payload[..start]) + Body(c) + old(payload[u..])
  {
    u := start;
    if c.opcode.ReadSPConfig? {
      u := PutWord(payload, u, c.address);
    }
    if c.opcode.WriteSPConfig? {
      u := PutConfig(payload, u, c.address, c.data);
    }
    if c.opcode.WriteSystem? {
      u := PutBytes(payload, u, JtagBytes(c));
    }
    if c.opcode.WriteReadSystem? {
      u := PutTransfer(payload, u, JtagBytes(c), c.data8[..c.tranByteCount]);
    }
  }

  /** spp_generate_payload; the caller's buffer must have room for the command. */
  method GeneratePayload(c: Command, payload: array<u8>) returns (size: u8)
    requires payload.Length == BUFFER_SIZE_MAX
    requires HasData(c) && Fits(c)
    modifies payload
    ensures size == |Encode(c)|
    ensures payload[..] == Encode(c) + old(payload[size..])
  {
    EncodedLength(c);
    var (h, headerSize) := BuildHeader(c.opcode, c.tranByteCount);
    ghost var header := HeaderPart(c);
    var u := PutBytes(payload, 0, HeaderBytes(h)[..headerSize]);
    assert payload[..u] == header;
    u := PutBody(c, payload, u);
    size := u;
  }

  // ---- Responses ----

  /** spp_packet_check: the response echoes the command's first byte and reports no error. */
  predicate PacketCheck(read: seq<u8>, written: seq<u8>) {
    |read| > 1 && |written| > 0 && written[0] == read[0] && read[1] == 0
  }

  /** Which responses pass: the first byte is that of the command, and the second reports no error. */
  lemma PacketCheckExactly(read: seq<u8>, c: Command)
    requires HasData(c)
    ensures PacketCheck(read, Encode(c)) <==> |read| > 1 && read[0] == 2 + 16 * Code(c.opcode) && read[1] == 0
  {
    EncodedHeader(c);
  }

  /** No response passes the check for commands with different opcodes. */
  lemma ResponseFitsOneOpcode(read: seq<u8>, c: Command, d: Command)
    requires HasData(c) && HasData(d)
    ensures PacketCheck(read, Encode(c)) && PacketCheck(read, Encode(d)) ==> c.opcode == d.opcode
  {
    OpcodeInFirstByte(c, d);
  }

  const COUNTER: nat := 0x1_0000

  /** The output counter has 16 bits, so the loop ends only for sizes that it can reach. */
  lemma CounterReachesSize(size: int)
    ensures (exists k: nat :: k % COUNTER >= size - HEADER_SIZE) <==> size <= HEADER_SIZE + COUNTER - 1
  {
    if size <= HEADER_SIZE + COUNTER - 1 {
      assert (COUNTER - 1) % COUNTER == COUNTER - 1 >= size - HEADER_SIZE;
    }
  }

  /** decode_rx_packet for sizes with which it ends: the index into the packet is eight bits wide. */
  method DecodeRx(size: int, payload: seq<u8>, output: array<u8>) returns (n: nat)
    requires HEADER_SIZE <= |payload| && size <= |payload| && size <= HEADER_SIZE + COUNTER - 1
    requires size - HEADER_SIZE <= output.Length
    modifies output
    ensures n == if size < HEADER_SIZE then 0 else size - HEADER_SIZE
    ensures forall k :: 0 <= k < output.Length ==>
      output[k] == if k < n then payload[(HEADER_SIZE + k) % 0x100] else old(output[k])
  {
    var i: u8 := HEADER_SIZE;
    n := 0;
    while n < size - HEADER_SIZE
      invariant 0 <= n && (n <= size - HEADER_SIZE || n == 0)
      invariant i == (HEADER_SIZE + n) % 0x100
      invariant forall k :: 0 <= k < output.Length ==>
        output[k] == if k < n then payload[(HEADER_SIZE + k) % 0x100] else old(output[k])
    {
      output[n] := payload[i];
      i := (i + 1) % 0x100;
      n := n + 1;
    }
  }

  function Decoded(payload: seq<u8>): (r: seq<u8>)
    requires |payload| >= HEADER_SIZE
  {
    seq(|payload| - HEADER_SIZE, k requires 0 <= k < |payload| - HEADER_SIZE => payload[(HEADER_SIZE + k) % 0x100])
  }

  /** The output is the packet without its header, for packets of every content, exactly up to 256 bytes. */
  lemma DecodedIsTail(size: nat)
    requires size >= HEADER_SIZE
    ensures (forall p: seq<u8> :: |p| == size ==> Decoded(p) == p[HEADER_SIZE..]) <==> size <= 0x100
  {
    if size <= 0x100 {
      forall p: seq<u8> | |p| == size ensures Decoded(p) == p[HEADER_SIZE..] {
        forall k | 0 <= k < size - HEADER_SIZE ensures Decoded(p)[k] == p[HEADER_SIZE..][k] {
          assert (HEADER_SIZE + k) % 0x100 == HEADER_SIZE + k;
        }
      }
    } else {
      var p: seq<u8> := seq(size, k => if k == 0x100 then 1 else 0);
      assert Decoded(p)[0x100 - HEADER_SIZE] == p[0] != p[HEADER_SIZE..][0x100 - HEADER_SIZE];
    }
  }
}
