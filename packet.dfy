/**
 * Packet framing of the ECAM wire protocol: the 16-bit checksum, the
 * `0x0d, length, payload, checksum` frame, and the hex rendering of bytes.
 */
module Packet {
  import opened Base

  /** Initial value of the checksum register (7439). */
  const Seed: bv16 := 0x1D0F

  /** First byte of every frame. */
  const Header: byte := 0x0d

  /** Lower-case hexadecimal digits, in value order. */
  const HexDigits: string := "0123456789abcdef"

  datatype PacketError = PacketTooLarge

  // ---------------------------------------------------------------------------
  // Checksum
  // ---------------------------------------------------------------------------

  /** One byte of the table-free checksum update. */
  function UpdateByte(reg: bv16, x: byte): bv16
  {
    var i3 := ((reg << 8) | (reg >> 8)) ^ (x as bv16);
    var i4 := i3 ^ ((i3 & 255) >> 4);
    var i5 := i4 ^ (i4 << 12);
    i5 ^ ((i5 & 255) << 5)
  }

  /** Left fold of `UpdateByte` over `s`, starting from register `reg`. */
  function Fold(reg: bv16, s: seq<byte>): bv16
    decreases s
  {
    if s == [] then reg else Fold(UpdateByte(reg, s[0]), s[1..])
  }

  /** The final checksum register for a buffer. */
  function Crc(s: seq<byte>): bv16
  {
    Fold(Seed, s)
  }

  /** A 16-bit value as two bytes, high byte first. */
  function BigEndian(x: bv16): (r: seq<byte>)
    ensures |r| == 2
    ensures ((r[0] as bv16) << 8) | (r[1] as bv16) == x
  {
    [(x >> 8) as byte, (x & 0xff) as byte]
  }

  /** The checksum of `buffer`: the final register, high byte then low byte. */
  method Checksum(buffer: seq<byte>) returns (r: seq<byte>)
    ensures r == BigEndian(Crc(buffer))
  {
    var i: bv16 := Seed;
    for k := 0 to |buffer|
      invariant Fold(i, buffer[k..]) == Crc(buffer)
    {
      var x := buffer[k];
      var i3 := ((i << 8) | (i >> 8)) ^ (x as bv16);
      var i4 := i3 ^ ((i3 & 255) >> 4);
      var i5 := i4 ^ (i4 << 12);
      FoldStep(i, buffer[k..]);
      assert buffer[k..][1..] == buffer[k + 1..];
      i := i5 ^ ((i5 & 255) << 5);
    }
    assert buffer[|buffer|..] == [];
    r := [(i >> 8) as byte, (i & 0xff) as byte];
  }

  /** One step of the fold: the first byte updates the register. */
  lemma FoldStep(reg: bv16, s: seq<byte>)
    requires s != []
    ensures Fold(reg, s) == Fold(UpdateByte(reg, s[0]), s[1..])
  {
  }

  /** The checksum of the empty buffer is the seed itself, `1d 0f`. */
  lemma ChecksumOfEmpty()
    ensures Crc([]) == Seed
    ensures BigEndian(Crc([])) == [0x1d, 0x0f]
  {
  }

  /** Folding a concatenation continues from the register reached after the prefix. */
  lemma {:induction false} FoldAppend(reg: bv16, a: seq<byte>, b: seq<byte>)
    ensures Fold(reg, a + b) == Fold(Fold(reg, a), b)
    decreases a
  {
    if a == [] {
      assert a + b == b;
    } else {
      var r := UpdateByte(reg, a[0]);
      assert (a + b)[0] == a[0];
      assert (a + b)[1..] == a[1..] + b;
      FoldStep(reg, a + b);
      FoldStep(reg, a);
      FoldAppend(r, a[1..], b);
    }
  }

  // ---------------------------------------------------------------------------
  // The checksum is CRC-16/CCITT (polynomial 0x1021, MSB first, no reflection,
  // no final XOR) started from 0x1D0F: the CRC-16/AUG-CCITT parameterisation.
  // ---------------------------------------------------------------------------

  /** Textbook one-bit step of an MSB-first CRC with generator 0x1021. */
  function ShiftBit(crc: bv16): bv16
  {
    if crc & 0x8000 == 0 then crc << 1 else (crc << 1) ^ 0x1021
  }

  function ShiftBits(crc: bv16, n: nat): bv16
    decreases n
  {
    if n == 0 then crc else ShiftBits(ShiftBit(crc), n - 1)
  }

  /** Textbook bytewise CRC-16/CCITT update: XOR the byte into the high half, shift eight bits. */
  function CcittUpdate(reg: bv16, x: byte): bv16
  {
    ShiftBits(reg ^ ((x as bv16) << 8), 8)
  }

  function CcittFold(reg: bv16, s: seq<byte>): bv16
    decreases s
  {
    if s == [] then reg else CcittFold(CcittUpdate(reg, s[0]), s[1..])
  }

  /** The one-bit step without a branch: the generator is masked in by the top bit. */
  lemma ShiftBitMasked(c: bv16, d: bv16)
    requires d == ShiftBit(c)
    ensures d == (c << 1) ^ (0x1021 & (0 - (c >> 15)))
  {
    if c & 0x8000 == 0 {
      assert c >> 15 == 0;
    } else {
      assert c >> 15 == 1;
    }
  }

  /** Two one-bit steps shift in the top two bits times the generator. */
  lemma TwoSteps(c0: bv16, c1: bv16, c2: bv16)
    requires c1 == (c0 << 1) ^ (0x1021 & (0 - (c0 >> 15)))
    requires c2 == (c1 << 1) ^ (0x1021 & (0 - (c1 >> 15)))
    ensures c2 == (c0 << 2) ^ (var n := c0 >> 14; n ^ (n << 5) ^ (n << 12))
  {
  }

  /** Two double steps make a nibble step: the top nibble times the generator. */
  lemma FourFromTwo(c0: bv16, c2: bv16, c4: bv16)
    requires c2 == (c0 << 2) ^ (var n := c0 >> 14; n ^ (n << 5) ^ (n << 12))
    requires c4 == (c2 << 2) ^ (var n := c2 >> 14; n ^ (n << 5) ^ (n << 12))
    ensures c4 == (c0 << 4) ^ (var n := c0 >> 12; n ^ (n << 5) ^ (n << 12))
  {
  }

  /** Two nibble steps make the byte step of the table-free update. */
  lemma EightFromFour(c0: bv16, c4: bv16, c8: bv16)
    requires c4 == (c0 << 4) ^ (var n := c0 >> 12; n ^ (n << 5) ^ (n << 12))
    requires c8 == (c4 << 4) ^ (var n := c4 >> 12; n ^ (n << 5) ^ (n << 12))
    ensures c8 == (c0 << 8) ^ (var h := c0 >> 8; var t := h ^ (h >> 4); t ^ (t << 12) ^ (t << 5))
  {
  }

  /** Eight one-bit steps in closed form. */
  lemma EightSteps(c0: bv16, c1: bv16, c2: bv16, c3: bv16, c4: bv16, c5: bv16, c6: bv16, c7: bv16, c8: bv16)
    requires c1 == (c0 << 1) ^ (0x1021 & (0 - (c0 >> 15)))
    requires c2 == (c1 << 1) ^ (0x1021 & (0 - (c1 >> 15)))
    requires c3 == (c2 << 1) ^ (0x1021 & (0 - (c2 >> 15)))
    requires c4 == (c3 << 1) ^ (0x1021 & (0 - (c3 >> 15)))
    requires c5 == (c4 << 1) ^ (0x1021 & (0 - (c4 >> 15)))
    requires c6 == (c5 << 1) ^ (0x1021 & (0 - (c5 >> 15)))
    requires c7 == (c6 << 1) ^ (0x1021 & (0 - (c6 >> 15)))
    requires c8 == (c7 << 1) ^ (0x1021 & (0 - (c7 >> 15)))
    ensures c8 == (c0 << 8) ^ (var h := c0 >> 8; var t := h ^ (h >> 4); t ^ (t << 12) ^ (t << 5))
  {
    TwoSteps(c0, c1, c2);
    TwoSteps(c2, c3, c4);
    TwoSteps(c4, c5, c6);
    TwoSteps(c6, c7, c8);
    FourFromTwo(c0, c2, c4);
    FourFromTwo(c4, c6, c8);
    EightFromFour(c0, c4, c8);
  }

  /** The update with the byte merged into the high half of the register. */
  lemma MergeByte(reg: bv16, x: byte)
    ensures UpdateByte(reg, x) == UpdateByte(reg ^ ((x as bv16) << 8), 0)
  {
  }

  /** The update of a zero byte in closed form. */
  lemma UpdateZero(c: bv16)
    ensures UpdateByte(c, 0) == (c << 8) ^ (var h := c >> 8; var t := h ^ (h >> 4); t ^ (t << 12) ^ (t << 5))
  {
  }

  /** Each byte update of the checksum is exactly one CRC-16/CCITT byte step. */
  lemma UpdateIsCcitt(reg: bv16, x: byte)
    ensures UpdateByte(reg, x) == CcittUpdate(reg, x)
  {
    var c0 := reg ^ ((x as bv16) << 8);
    var c1 := ShiftBit(c0);
    var c2 := ShiftBit(c1);
    var c3 := ShiftBit(c2);
    var c4 := ShiftBit(c3);
    var c5 := ShiftBit(c4);
    var c6 := ShiftBit(c5);
    var c7 := ShiftBit(c6);
    var c8 := ShiftBit(c7);
    ShiftBitMasked(c0, c1);
    ShiftBitMasked(c1, c2);
    ShiftBitMasked(c2, c3);
    ShiftBitMasked(c3, c4);
    ShiftBitMasked(c4, c5);
    ShiftBitMasked(c5, c6);
    ShiftBitMasked(c6, c7);
    ShiftBitMasked(c7, c8);
    EightSteps(c0, c1, c2, c3, c4, c5, c6, c7, c8);
    MergeByte(reg, x);
    UpdateZero(c0);
    assert ShiftBits(c7, 1) == c8;
    assert ShiftBits(c6, 2) == c8;
    assert ShiftBits(c5, 3) == c8;
    assert ShiftBits(c4, 4) == c8;
    assert ShiftBits(c3, 5) == c8;
    assert ShiftBits(c2, 6) == c8;
    assert ShiftBits(c1, 7) == c8;
    assert ShiftBits(c0, 8) == c8;
  }

  /** The checksum register is the CRC-16/CCITT register, from any start value. */
  lemma {:induction false} FoldIsCcitt(reg: bv16, s: seq<byte>)
    ensures Fold(reg, s) == CcittFold(reg, s)
    decreases s
  {
    if s != [] {
      UpdateIsCcitt(reg, s[0]);
      FoldIsCcitt(UpdateByte(reg, s[0]), s[1..]);
    }
  }

  /** `Crc` is CRC-16/AUG-CCITT: CRC-16/CCITT seeded with 0x1D0F. */
  lemma CrcIsAugCcitt(s: seq<byte>)
    ensures Crc(s) == CcittFold(0x1D0F, s)
  {
    FoldIsCcitt(Seed, s);
  }

  /** The catalogue check value of CRC-16/AUG-CCITT: "123456789" gives 0xE5CC. */
  lemma CrcCheckValue()
    ensures Crc([0x31, 0x32, 0x33, 0x34, 0x35, 0x36, 0x37, 0x38, 0x39]) == 0xE5CC
  {
    var s: seq<byte> := [0x31, 0x32, 0x33, 0x34, 0x35, 0x36, 0x37, 0x38, 0x39];
    assert Fold(0x712c, s[8..]) == 0xE5CC;
    assert Fold(0x9ea4, s[7..]) == 0xE5CC;
    assert Fold(0x11da, s[6..]) == 0xE5CC;
    assert Fold(0xa5a2, s[5..]) == 0xE5CC;
    assert Fold(0xd999, s[4..]) == 0xE5CC;
    assert Fold(0x865e, s[3..]) == 0xE5CC;
    assert Fold(0xa475, s[2..]) == 0xE5CC;
    assert Fold(0xeaee, s[1..]) == 0xE5CC;
  }

  /** Folding three consecutive pieces continues piece by piece. */
  lemma Fold3(reg: bv16, a: seq<byte>, b: seq<byte>, c: seq<byte>)
    ensures Fold(reg, a + b + c) == Fold(Fold(Fold(reg, a), b), c)
  {
    FoldAppend(reg, a + b, c);
    FoldAppend(reg, a, b);
  }

  // The unit-test buffers are folded a few bytes at a time; each piece names
  // the register it starts from and the register it reaches.

  lemma FoldCoffee1()
    ensures Fold(0x1d0f, [0x0d, 0x0f, 0x83, 0xf0, 0x02]) == 0x55d3
  {
    var s: seq<byte> := [0x0d, 0x0f, 0x83, 0xf0, 0x02];
    assert Fold(0xba73, s[4..]) == 0x55d3;
    assert Fold(0xe288, s[3..]) == 0x55d3;
    assert Fold(0x0373, s[2..]) == 0x55d3;
    assert Fold(0x1d31, s[1..]) == 0x55d3;
  }

  lemma FoldCoffee2()
    ensures Fold(0x55d3, [0x01, 0x01, 0x00, 0x67, 0x02]) == 0x6ba0
  {
    var s: seq<byte> := [0x01, 0x01, 0x00, 0x67, 0x02];
    assert Fold(0xa87f, s[4..]) == 0x6ba0;
    assert Fold(0xf14b, s[3..]) == 0x6ba0;
    assert Fold(0x2944, s[2..]) == 0x6ba0;
    assert Fold(0xc971, s[1..]) == 0x6ba0;
  }

  lemma FoldCoffee3()
    ensures Fold(0x6ba0, [0x02, 0x00, 0x00, 0x06]) == 0x77ff
  {
    var s: seq<byte> := [0x02, 0x00, 0x00, 0x06];
    assert Fold(0x1884, s[3..]) == 0x77ff;
    assert Fold(0x0458, s[2..]) == 0x77ff;
    assert Fold(0x5d8f, s[1..]) == 0x77ff;
  }

  /** Checksum vector of the unit tests: the coffee request frame prefix gives `77 ff`. */
  lemma ChecksumVectorCoffee(buffer: seq<byte>)
    requires buffer == [0x0d, 0x0f, 0x83, 0xf0, 0x02, 0x01, 0x01, 0x00, 0x67, 0x02, 0x02, 0x00, 0x00, 0x06]
    ensures BigEndian(Crc(buffer)) == [0x77, 0xff]
  {
    var a: seq<byte> := [0x0d, 0x0f, 0x83, 0xf0, 0x02];
    var b: seq<byte> := [0x01, 0x01, 0x00, 0x67, 0x02];
    var c: seq<byte> := [0x02, 0x00, 0x00, 0x06];
    assert a + b + c == buffer;
    FoldCoffee1();
    FoldCoffee2();
    FoldCoffee3();
    Fold3(Seed, a, b, c);
  }

  lemma FoldBrew1()
    ensures Fold(0x1d0f, [0x0d, 0x0d, 0x83, 0xf0, 0x05]) == 0xc85c
  {
    var s: seq<byte> := [0x0d, 0x0d, 0x83, 0xf0, 0x05];
    assert Fold(0xd413, s[4..]) == 0xc85c;
    assert Fold(0x84ea, s[3..]) == 0xc85c;
    assert Fold(0x2331, s[2..]) == 0xc85c;
    assert Fold(0x1d31, s[1..]) == 0xc85c;
  }

  lemma FoldBrew2()
    ensures Fold(0xc85c, [0x01, 0x01, 0x00, 0x78]) == 0xa3d3
  {
    var s: seq<byte> := [0x01, 0x01, 0x00, 0x78];
    assert Fold(0xc085, s[3..]) == 0xa3d3;
    assert Fold(0x2794, s[2..]) == 0xa3d3;
    assert Fold(0x1465, s[1..]) == 0xa3d3;
  }

  lemma FoldBrew3()
    ensures Fold(0xa3d3, [0x00, 0x00, 0x06]) == 0xc47e
  {
    var s: seq<byte> := [0x00, 0x00, 0x06];
    assert Fold(0xb333, s[2..]) == 0xc47e;
    assert Fold(0x5689, s[1..]) == 0xc47e;
  }

  /** Checksum vector of the unit tests: a second brew frame prefix gives `c4 7e`. */
  lemma ChecksumVectorBrew(buffer: seq<byte>)
    requires buffer == [0x0d, 0x0d, 0x83, 0xf0, 0x05, 0x01, 0x01, 0x00, 0x78, 0x00, 0x00, 0x06]
    ensures BigEndian(Crc(buffer)) == [0xc4, 0x7e]
  {
    var a: seq<byte> := [0x0d, 0x0d, 0x83, 0xf0, 0x05];
    var b: seq<byte> := [0x01, 0x01, 0x00, 0x78];
    var c: seq<byte> := [0x00, 0x00, 0x06];
    assert a + b + c == buffer;
    FoldBrew1();
    FoldBrew2();
    FoldBrew3();
    Fold3(Seed, a, b, c);
  }

  lemma FoldTurnOn1()
    ensures Fold(0x1d0f, [0x0d, 0x07, 0x84]) == 0x1bc6
  {
    var s: seq<byte> := [0x0d, 0x07, 0x84];
    assert Fold(0x827b, s[2..]) == 0x1bc6;
    assert Fold(0x1d31, s[1..]) == 0x1bc6;
  }

  lemma FoldTurnOn2()
    ensures Fold(0x1bc6, [0x0f, 0x02, 0x01]) == 0x5512
  {
    var s: seq<byte> := [0x0f, 0x02, 0x01];
    assert Fold(0x567f, s[2..]) == 0x5512;
    assert Fold(0x94b5, s[1..]) == 0x5512;
  }

  /** Checksum vector of the unit tests: the turn-on request frame prefix gives `55 12`. */
  lemma ChecksumVectorTurnOn(buffer: seq<byte>)
    requires buffer == [0x0d, 0x07, 0x84, 0x0f, 0x02, 0x01]
    ensures BigEndian(Crc(buffer)) == [0x55, 0x12]
  {
    var a: seq<byte> := [0x0d, 0x07, 0x84];
    var b: seq<byte> := [0x0f, 0x02, 0x01];
    assert a + b == buffer;
    FoldTurnOn1();
    FoldTurnOn2();
    FoldAppend(Seed, a, b);
  }

  // ---------------------------------------------------------------------------
  // Residue: a buffer followed by its own checksum has checksum zero
  // ---------------------------------------------------------------------------

  /** Folding two bytes is two updates. */
  lemma FoldPair(reg: bv16, x: byte, y: byte)
    ensures Fold(reg, [x, y]) == UpdateByte(UpdateByte(reg, x), y)
  {
    var r1 := UpdateByte(reg, x);
    assert Fold(UpdateByte(r1, y), []) == UpdateByte(r1, y);
    assert [y][1..] == [];
    assert Fold(r1, [y]) == UpdateByte(r1, y);
    assert [x, y][1..] == [y];
  }

  lemma TwoByteResidue(r: bv16)
    ensures UpdateByte(UpdateByte(r, (r >> 8) as byte), (r & 0xff) as byte) == 0
  {
  }

  lemma UpdateToZero(s: bv16, b: byte)
    requires UpdateByte(s, b) == 0
    ensures s == (b as bv16) << 8
  {
  }

  lemma UpdateLowByteZero(r: bv16, a: byte)
    requires UpdateByte(r, a) & 0xff == 0
    ensures a == (r >> 8) as byte
  {
  }

  /** Appending the big-endian checksum to a buffer drives the register to zero. */
  lemma CrcResidue(m: seq<byte>)
    ensures Crc(m + BigEndian(Crc(m))) == 0
  {
    var r := Crc(m);
    FoldAppend(Seed, m, BigEndian(r));
    TwoByteResidue(r);
    FoldPair(r, (r >> 8) as byte, (r & 0xff) as byte);
  }

  /** Two trailing bytes that drive the register to zero can only be the checksum. */
  lemma CrcResidueUnique(m: seq<byte>, tail: seq<byte>)
    requires |tail| == 2
    requires Crc(m + tail) == 0
    ensures tail == BigEndian(Crc(m))
  {
    var r := Crc(m);
    FoldAppend(Seed, m, tail);
    assert tail == [tail[0], tail[1]];
    FoldPair(r, tail[0], tail[1]);
    var s := UpdateByte(r, tail[0]);
    assert UpdateByte(s, tail[1]) == 0;
    UpdateToZero(s, tail[1]);
    UpdateLowByteZero(r, tail[0]);
    TwoByteResidue(r);
    UpdateToZero(UpdateByte(r, (r >> 8) as byte), (r & 0xff) as byte);
  }

  // ---------------------------------------------------------------------------
  // Framing
  // ---------------------------------------------------------------------------

  /** Whether the length byte `|payload| + 3` of a frame fits in a `u8`. */
  predicate Fits(payload: seq<byte>)
  {
    |payload| + 3 <= 255
  }

  /** The frame around `payload`: header, length, payload, checksum of everything before it. */
  function Frame(payload: seq<byte>): (f: seq<byte>)
    requires Fits(payload)
    ensures |f| == |payload| + 4
    ensures f[0] == Header && f[1] == (|payload| + 3) as byte
    ensures f[2..|payload| + 2] == payload
    ensures f[|payload| + 2..] == BigEndian(Crc(f[..|payload| + 2]))
  {
    var head := [Header, (|payload| + 3) as byte] + payload;
    var f := head + BigEndian(Crc(head));
    assert f[..|payload| + 2] == head;
    assert f[|payload| + 2..] == BigEndian(Crc(head));
    f
  }

  /**
   * Wraps `buffer` in a frame. A payload whose length byte would not fit in a
   * `u8` is the "Packet too large" failure.
   */
  method Packetize(buffer: seq<byte>) returns (r: Result<seq<byte>, PacketError>)
    ensures r.Err? <==> !Fits(buffer)
    ensures r.Ok? ==> Fits(buffer) && r.value == Frame(buffer)
  {
    if |buffer| + 3 > 255 {
      return Err(PacketTooLarge);
    }
    var out: seq<byte> := [Header, (|buffer| + 3) as byte];
    out := out + buffer;
    var crc := Checksum(out);
    out := out + crc;
    return Ok(out);
  }

  /** The receiving side of a frame: checks header, length byte and checksum. */
  function Unframe(p: seq<byte>): Option<seq<byte>>
  {
    if 4 <= |p| <= 256 && p[0] == Header && p[1] == (|p| - 1) as byte
       && p[|p| - 2..] == BigEndian(Crc(p[..|p| - 2]))
    then Some(p[2..|p| - 2])
    else None
  }

  /** Every frame is accepted and yields its payload back. */
  lemma UnframeFrame(payload: seq<byte>)
    requires Fits(payload)
    ensures Unframe(Frame(payload)) == Some(payload)
  {
  }

  /** Whatever is accepted is exactly the frame of the payload it yields. */
  lemma FrameUnframe(p: seq<byte>, payload: seq<byte>)
    requires Unframe(p) == Some(payload)
    ensures Fits(payload) && Frame(payload) == p
  {
    var f := Frame(payload);
    assert f[..|payload| + 2] == p[..|p| - 2];
    assert f == f[..|payload| + 2] + f[|payload| + 2..];
    assert p == p[..|p| - 2] + p[|p| - 2..];
  }

  /** A frame's checksum bytes are right exactly when the checksum over the whole frame is zero. */
  lemma FrameCheckByResidue(p: seq<byte>)
    requires |p| >= 2
    ensures p[|p| - 2..] == BigEndian(Crc(p[..|p| - 2])) <==> Crc(p) == 0
  {
    var m, tail := p[..|p| - 2], p[|p| - 2..];
    assert p == m + tail;
    if tail == BigEndian(Crc(m)) {
      CrcResidue(m);
    }
    if Crc(p) == 0 {
      CrcResidueUnique(m, tail);
    }
  }

  /** The frame is its head followed by the big-endian checksum of that head. */
  lemma FrameOfHead(payload: seq<byte>, head: seq<byte>, crc: seq<byte>)
    requires Fits(payload)
    requires head == [Header, (|payload| + 3) as byte] + payload
    requires crc == BigEndian(Crc(head))
    ensures Frame(payload) == head + crc
  {
  }

  /** Packetize vector of the unit tests: the coffee request. */
  lemma FrameVectorCoffee(payload: seq<byte>)
    requires payload == [0x83, 0xf0, 0x02, 0x01, 0x01, 0x00, 0x67, 0x02, 0x02, 0x00, 0x00, 0x06]
    ensures Fits(payload)
    ensures Frame(payload) == [0x0d, 0x0f, 0x83, 0xf0, 0x02, 0x01, 0x01, 0x00, 0x67, 0x02, 0x02, 0x00, 0x00, 0x06, 0x77, 0xff]
  {
    var head := [Header, (|payload| + 3) as byte] + payload;
    assert head == [0x0d, 0x0f, 0x83, 0xf0, 0x02, 0x01, 0x01, 0x00, 0x67, 0x02, 0x02, 0x00, 0x00, 0x06];
    ChecksumVectorCoffee(head);
    FrameOfHead(payload, head, [0x77, 0xff]);
  }

  /** Packetize vector of the unit tests: a second brew request. */
  lemma FrameVectorBrew(payload: seq<byte>)
    requires payload == [0x83, 0xf0, 0x05, 0x01, 0x01, 0x00, 0x78, 0x00, 0x00, 0x06]
    ensures Fits(payload)
    ensures Frame(payload) == [0x0d, 0x0d, 0x83, 0xf0, 0x05, 0x01, 0x01, 0x00, 0x78, 0x00, 0x00, 0x06, 0xc4, 0x7e]
  {
    var head := [Header, (|payload| + 3) as byte] + payload;
    assert head == [0x0d, 0x0d, 0x83, 0xf0, 0x05, 0x01, 0x01, 0x00, 0x78, 0x00, 0x00, 0x06];
    ChecksumVectorBrew(head);
    FrameOfHead(payload, head, [0xc4, 0x7e]);
  }

  /** Packetize vector of the unit tests: the turn-on request. */
  lemma FrameVectorTurnOn(payload: seq<byte>)
    requires payload == [0x84, 0x0f, 0x02, 0x01]
    ensures Fits(payload)
    ensures Frame(payload) == [0x0d, 0x07, 0x84, 0x0f, 0x02, 0x01, 0x55, 0x12]
  {
    var head := [Header, (|payload| + 3) as byte] + payload;
    assert head == [0x0d, 0x07, 0x84, 0x0f, 0x02, 0x01];
    ChecksumVectorTurnOn(head);
    FrameOfHead(payload, head, [0x55, 0x12]);
  }

  // ---------------------------------------------------------------------------
  // Hex rendering
  // ---------------------------------------------------------------------------

  function HexDigit(n: byte): char
    requires n < 16
  {
    HexDigits[n as int]
  }

  /** The value of a lower-case hex digit, if `c` is one. */
  function HexValue(c: char): Option<byte>
  {
    match c
    case '0' => Some(0x0) case '1' => Some(0x1) case '2' => Some(0x2) case '3' => Some(0x3)
    case '4' => Some(0x4) case '5' => Some(0x5) case '6' => Some(0x6) case '7' => Some(0x7)
    case '8' => Some(0x8) case '9' => Some(0x9) case 'a' => Some(0xa) case 'b' => Some(0xb)
    case 'c' => Some(0xc) case 'd' => Some(0xd) case 'e' => Some(0xe) case 'f' => Some(0xf)
    case _ => None
  }

  /** Each byte as exactly two lower-case hex digits, high nibble first, in order. */
  function Stringify(buffer: seq<byte>): (r: string)
    ensures |r| == 2 * |buffer|
  {
    if buffer == [] then ""
    else [HexDigit(buffer[0] >> 4), HexDigit(buffer[0] & 0xf)] + Stringify(buffer[1..])
  }

  /** Byte `i` of the buffer is rendered at positions `2i` (high nibble) and `2i + 1` (low nibble). */
  lemma {:induction false} StringifyDigits(buffer: seq<byte>, i: nat)
    requires i < |buffer|
    ensures Stringify(buffer)[2 * i] == HexDigit(buffer[i] >> 4)
    ensures Stringify(buffer)[2 * i + 1] == HexDigit(buffer[i] & 0xf)
  {
    if i > 0 {
      StringifyDigits(buffer[1..], i - 1);
    }
  }

  /** Reads back a string of hex digit pairs (the inverse rendering). */
  function Unstringify(s: string): Option<seq<byte>>
    decreases |s|
  {
    if s == [] then Some([])
    else if |s| == 1 then None
    else
      match (HexValue(s[0]), HexValue(s[1]), Unstringify(s[2..]))
      case (Some(hi), Some(lo), Some(rest)) => Some([(hi << 4) | lo] + rest)
      case _ => None
  }

  lemma HexDigitValue(n: byte)
    requires n < 16
    ensures HexValue(HexDigit(n)) == Some(n)
  {
  }

  lemma NibblesJoin(b: byte)
    ensures ((b >> 4) << 4) | (b & 0xf) == b
  {
  }

  /** Reading back the rendering gives the original bytes. */
  lemma {:induction false} UnstringifyStringify(buffer: seq<byte>)
    ensures Unstringify(Stringify(buffer)) == Some(buffer)
  {
    if buffer != [] {
      var b := buffer[0];
      var s := Stringify(buffer);
      HexDigitValue(b >> 4);
      HexDigitValue(b & 0xf);
      assert s[2..] == Stringify(buffer[1..]);
      UnstringifyStringify(buffer[1..]);
      NibblesJoin(b);
      assert buffer == [b] + buffer[1..];
    }
  }

  /** Every character of a rendering is a lower-case hex digit. */
  lemma {:induction false} StringifyAlphabet(buffer: seq<byte>)
    ensures forall c :: c in Stringify(buffer) ==> c in HexDigits
  {
    if buffer != [] {
      StringifyAlphabet(buffer[1..]);
    }
  }
}

/** The packet values the driver exchanges: raw driver packets and packets with a decoded form. */
module EcamPackets {
  import opened Base
  import Packet

  /** A byte-based driver packet, before framing. */
  datatype EcamDriverPacket = EcamDriverPacket(bytes: seq<byte>)
  {
    static function FromVec(bytes: seq<byte>): (p: EcamDriverPacket)
      ensures p.bytes == bytes
    {
      EcamDriverPacket(bytes)
    }

    /** The hex rendering of the packet's bytes; it reads back to those bytes. */
    function Stringify(): (s: string)
      ensures |s| == 2 * |bytes|
      ensures Packet.Unstringify(s) == Some(bytes)
    {
      Packet.UnstringifyStringify(bytes);
      Packet.Stringify(bytes)
    }

    /** The packet's bytes wrapped in a frame. */
    method Packetize() returns (r: Result<seq<byte>, Packet.PacketError>)
      ensures r.Err? <==> !Packet.Fits(bytes)
      ensures r.Ok? ==> Packet.Unframe(r.value) == Some(bytes)
    {
      r := Packet.Packetize(bytes);
      if r.Ok? {
        Packet.UnframeFrame(bytes);
      }
    }
  }

  /** A packet that may carry its decoded representation alongside its bytes. */
  datatype EcamPacket<T> = EcamPacket(representation: Option<T>, bytes: seq<byte>)
  {
    /** Whether the attached representation, if any, is what `bytes` encodes. */
    predicate EncodedBy(encode: T -> seq<byte>)
    {
      representation.Some? ==> bytes == encode(representation.value)
    }

    static function FromUndecodeableBytes(input: seq<byte>): (p: EcamPacket<T>)
      ensures p.representation == None && p.bytes == input
    {
      EcamPacket(None, input)
    }

    static function FromRepresentation(representation: T, encode: T -> seq<byte>): (p: EcamPacket<T>)
      ensures p.representation == Some(representation) && p.bytes == encode(representation)
      ensures p.EncodedBy(encode)
    {
      EcamPacket(Some(representation), encode(representation))
    }
  }
}
