/** The MAVLink frame checksum: the byte-at-a-time accumulator of both encoders against
    bit-serial polynomial division, and the corruption it is guaranteed to catch. */
module Mavlink {

  /** One byte, with the shifts and xors of the encoders; `d` and `e` are kept to eight bits. */
  function Accumulate(byte: bv8, crc: bv16): bv16 {
    var d := (byte as bv16) ^ (crc & 0xFF);
    var e := d ^ ((d << 4) & 0xFF);
    (crc >> 8) ^ (e << 8) ^ (e << 3) ^ (e >> 4)
  }

  /** One bit of reflected division by the FCS-16 polynomial (Appendix C of RFC 1662). */
  function ShiftBit(crc: bv16): bv16 {
    if crc & 1 == 1 then (crc >> 1) ^ 0x8408 else crc >> 1
  }

  function ShiftBits(crc: bv16, n: nat): bv16 {
    if n == 0 then crc else ShiftBit(ShiftBits(crc, n - 1))
  }

  /** One byte of bit-serial division. */
  function DivideByte(byte: bv8, crc: bv16): bv16 {
    ShiftBits(crc ^ (byte as bv16), 8)
  }

  // Feedback of up to four bits reaches no bit that is shifted out within those four steps.

  function Nibble(x: bv16): bv16 {
    (x >> 4) ^ ((x & 15) << 12) ^ ((x & 15) << 7) ^ (x & 15)
  }

  lemma OneBit(x: bv16)
    ensures ShiftBit(x) == (x >> 1) ^ ((x & 1) << 15) ^ ((x & 1) << 10) ^ ((x & 1) << 3)
  {
    BitIsZeroOrOne(x);
    FeedbackOfBit(x >> 1);
  }

  lemma BitIsZeroOrOne(x: bv16)
    ensures x & 1 == 0 || x & 1 == 1
  {}

  lemma FeedbackOfBit(half: bv16)
    ensures half ^ (1 << 15) ^ (1 << 10) ^ (1 << 3) == half ^ 0x8408
    ensures half ^ (0 << 15) ^ (0 << 10) ^ (0 << 3) == half
  {}

  lemma TwoBits(x: bv16)
    ensures ShiftBit(ShiftBit(x)) == (x >> 2) ^ ((x & 3) << 14) ^ ((x & 3) << 9) ^ ((x & 3) << 2)
  {
    hide ShiftBit;
    OneBit(x);
    OneBit(ShiftBit(x));
  }

  lemma FourBits(x: bv16)
    ensures ShiftBit(ShiftBit(ShiftBit(ShiftBit(x)))) == Nibble(x)
  {
    hide ShiftBit;
    TwoBits(x);
    TwoBits(ShiftBit(ShiftBit(x)));
  }

  lemma ShiftIsLinear(a: bv16, b: bv16)
    ensures (a ^ b) >> 4 == (a >> 4) ^ (b >> 4)
    ensures (a ^ b) << 12 == (a << 12) ^ (b << 12)
    ensures (a ^ b) << 7 == (a << 7) ^ (b << 7)
    ensures (a ^ b) & 15 == (a & 15) ^ (b & 15)
  {}

  lemma XorShuffle(p: bv16, q: bv16, r: bv16, s: bv16, t: bv16, u: bv16, v: bv16, w: bv16)
    ensures (p ^ q) ^ (r ^ s) ^ (t ^ u) ^ (v ^ w) == (p ^ r ^ t ^ v) ^ (q ^ s ^ u ^ w)
  {}

  lemma NibbleIsLinear(a: bv16, b: bv16)
    ensures Nibble(a ^ b) == Nibble(a) ^ Nibble(b)
  {
    var x, y := a & 15, b & 15;
    ShiftIsLinear(a, b);
    ShiftIsLinear(x, y);
    XorShuffle(a >> 4, b >> 4, x << 12, y << 12, x << 7, y << 7, x, y);
  }

  lemma HighByteShiftsOut(h: bv16)
    requires h & 0xFF == 0
    ensures Nibble(Nibble(h)) == h >> 8
  {}

  lemma LowByteFeedsBack(d: bv16)
    requires d & 0xFF == d
    ensures Nibble(Nibble(d)) == Feedback(d)
  {}

  lemma FourMoreBits(x: bv16, n: nat)
    ensures ShiftBits(x, n + 4) == Nibble(ShiftBits(x, n))
  {
    hide Nibble, ShiftBit;
    var y := ShiftBits(x, n);
    assert ShiftBits(x, n + 2) == ShiftBit(ShiftBit(y));
    assert ShiftBits(x, n + 4) == ShiftBit(ShiftBit(ShiftBits(x, n + 2)));
    FourBits(y);
  }

  lemma TwoNibblesAreLinear(a: bv16, b: bv16)
    ensures Nibble(Nibble(a ^ b)) == Nibble(Nibble(a)) ^ Nibble(Nibble(b))
  {
    hide Nibble;
    NibbleIsLinear(a, b);
    NibbleIsLinear(Nibble(a), Nibble(b));
  }

  function Feedback(d: bv16): bv16 {
    var e := d ^ ((d << 4) & 0xFF);
    (e << 8) ^ (e << 3) ^ (e >> 4)
  }

  lemma DivideParts(h: bv16, d: bv16, fromHigh: bv16, fromLow: bv16)
    requires Nibble(Nibble(h)) == fromHigh && Nibble(Nibble(d)) == fromLow
    ensures Nibble(Nibble(h ^ d)) == fromHigh ^ fromLow
  {
    hide Nibble;
    TwoNibblesAreLinear(h, d);
  }

  lemma DivideSplit(h: bv16, d: bv16, x: bv16)
    requires h & 0xFF == 0 && d & 0xFF == d && x == h ^ d
    ensures ShiftBits(x, 8) == (h >> 8) ^ Feedback(d)
  {
    hide Nibble, ShiftBits, Feedback;
    ByteInTwoNibbles(x);
    HighByteShiftsOut(h);
    LowByteFeedsBack(d);
    DivideParts(h, d, h >> 8, Feedback(d));
  }

  function High(crc: bv16): bv16 {
    crc & 0xFF00
  }

  function Low(byte: bv8, crc: bv16): bv16 {
    (byte as bv16) ^ (crc & 0xFF)
  }

  lemma HighPart(crc: bv16)
    ensures High(crc) & 0xFF == 0 && High(crc) >> 8 == crc >> 8
  {}

  lemma LowPart(byte: bv8, crc: bv16)
    ensures Low(byte, crc) & 0xFF == Low(byte, crc)
  {}

  lemma HighAndLow(byte: bv8, crc: bv16)
    ensures High(crc) ^ Low(byte, crc) == crc ^ (byte as bv16)
  {}

  lemma DivideTwoParts(byte: bv8, crc: bv16, h: bv16, d: bv16, top: bv16, fed: bv16)
    requires h & 0xFF == 0 && d & 0xFF == d && h ^ d == crc ^ (byte as bv16)
    requires top == h >> 8 && fed == Feedback(d)
    ensures DivideByte(byte, crc) == top ^ fed
  {
    hide ShiftBits, Feedback;
    DivideSplit(h, d, crc ^ (byte as bv16));
  }

  lemma DivideByteIsFeedback(byte: bv8, crc: bv16)
    ensures DivideByte(byte, crc) == (crc >> 8) ^ Feedback(Low(byte, crc))
  {
    hide DivideByte, Feedback, High, Low;
    HighPart(crc);
    LowPart(byte, crc);
    HighAndLow(byte, crc);
    DivideTwoParts(byte, crc, High(crc), Low(byte, crc), crc >> 8, Feedback(Low(byte, crc)));
  }

  lemma AccumulateIsFeedback(byte: bv8, crc: bv16)
    ensures Accumulate(byte, crc) == (crc >> 8) ^ Feedback(Low(byte, crc))
  {
    var d := (byte as bv16) ^ (crc & 0xFF);
    var e := d ^ ((d << 4) & 0xFF);
    XorAssociates(crc >> 8, e << 8, e << 3, e >> 4);
  }

  /** The accumulator is eight steps of bit-serial division. */
  lemma AccumulateDivides(byte: bv8, crc: bv16)
    ensures Accumulate(byte, crc) == DivideByte(byte, crc)
  {
    hide DivideByte, Feedback, Accumulate, Low;
    AccumulateIsFeedback(byte, crc);
    DivideByteIsFeedback(byte, crc);
  }

  lemma XorAssociates(a: bv16, b: bv16, c: bv16, d: bv16)
    ensures a ^ (b ^ c ^ d) == a ^ b ^ c ^ d
  {}

  lemma ByteInTwoNibbles(x: bv16)
    ensures ShiftBits(x, 8) == Nibble(Nibble(x))
  {
    hide Nibble;
    FourMoreBits(x, 0);
    FourMoreBits(x, 4);
    assert ShiftBits(x, 0) == x;
  }

  // ---------------------------------------------------------------- divergence

  /** Undoes one bit of the division: the polynomial's top bit tells which branch was taken. */
  function UnshiftBit(crc: bv16): bv16 {
    if crc & 0x8000 == 0 then crc << 1 else ((crc ^ 0x8408) << 1) | 1
  }

  lemma UnshiftUndoes(crc: bv16)
    ensures UnshiftBit(ShiftBit(crc)) == crc
  {}

  lemma {:induction false} ShiftBitsInjective(a: bv16, b: bv16, n: nat)
    requires ShiftBits(a, n) == ShiftBits(b, n)
    ensures a == b
  {
    hide ShiftBit, UnshiftBit;
    if n > 0 {
      UnshiftUndoes(ShiftBits(a, n - 1));
      UnshiftUndoes(ShiftBits(b, n - 1));
      ShiftBitsInjective(a, b, n - 1);
    }
  }

  lemma XorCancels(a: bv16, b: bv16, c: bv16)
    requires a ^ c == b ^ c
    ensures a == b
  {}

  lemma AccumulateMerges(a: bv8, c: bv16, b: bv8, d: bv16)
    requires Accumulate(a, c) == Accumulate(b, d)
    ensures c ^ (a as bv16) == d ^ (b as bv16)
  {
    hide Accumulate, ShiftBits;
    AccumulateDivides(a, c);
    AccumulateDivides(b, d);
    ShiftBitsInjective(c ^ (a as bv16), d ^ (b as bv16), 8);
  }

  lemma SameByteMerges(c: bv16, d: bv16, k: bv16, x: bv16, y: bv16)
    requires x == c ^ k && y == d ^ k && ShiftBits(x, 8) == ShiftBits(y, 8)
    ensures c == d
  {
    hide ShiftBits;
    ShiftBitsInjective(x, y, 8);
    XorCancels(c, d, k);
  }

  lemma DivisionStaysApart(byte: bv8, c: bv16, d: bv16)
    requires DivideByte(byte, c) == DivideByte(byte, d)
    ensures c == d
  {
    hide ShiftBits;
    SameByteMerges(c, d, byte as bv16, c ^ (byte as bv16), d ^ (byte as bv16));
  }

  /** The register never forgets: the same byte keeps different registers different. */
  lemma RegistersStayApart(byte: bv8, c: bv16, d: bv16)
    requires Accumulate(byte, c) == Accumulate(byte, d)
    ensures c == d
  {
    hide Accumulate, DivideByte;
    AccumulateDivides(byte, c);
    AccumulateDivides(byte, d);
    DivisionStaysApart(byte, c, d);
  }

  lemma FeedbackHighByte(l: bv16, m: bv16)
    requires l & 0xFF == l && m & 0xFF == m && Feedback(l) & 0xFF00 == Feedback(m) & 0xFF00
    ensures l == m
  {}

  lemma BytesMeet(x: bv16, y: bv16, b: bv8, d: bv8)
    requires x ^ (b as bv16) == y ^ (d as bv16)
    ensures x & 0xFF00 == y & 0xFF00
    ensures x == y ==> b == d
  {}

  lemma HighByteOfSum(c: bv16, f: bv16)
    ensures ((c >> 8) ^ f) & 0xFF00 == f & 0xFF00
  {}

  lemma LowDeterminesByte(a: bv8, b: bv8, crc: bv16)
    requires Low(a, crc) == Low(b, crc)
    ensures a == b
  {}

  /** Two bytes into the register are recoverable from it: different pairs diverge. */
  lemma PairsDiverge(a: bv8, b: bv8, c: bv8, d: bv8, crc: bv16)
    requires Accumulate(b, Accumulate(a, crc)) == Accumulate(d, Accumulate(c, crc))
    ensures a == c && b == d
  {
    hide Accumulate, Feedback, Low;
    var x, y := Accumulate(a, crc), Accumulate(c, crc);
    AccumulateMerges(b, x, d, y);
    BytesMeet(x, y, b, d);
    FirstBytesEqual(a, c, crc, x, y);
  }

  lemma FirstBytesEqual(a: bv8, c: bv8, crc: bv16, x: bv16, y: bv16)
    requires x == Accumulate(a, crc) && y == Accumulate(c, crc) && x & 0xFF00 == y & 0xFF00
    ensures a == c
  {
    hide Accumulate, Feedback, Low;
    AccumulateIsFeedback(a, crc);
    AccumulateIsFeedback(c, crc);
    HighByteOfSum(crc, Feedback(Low(a, crc)));
    HighByteOfSum(crc, Feedback(Low(c, crc)));
    LowPart(a, crc);
    LowPart(c, crc);
    FeedbackHighByte(Low(a, crc), Low(c, crc));
    LowDeterminesByte(a, c, crc);
  }

  // ---------------------------------------------------------------- messages

  type Bytes = seq<bv8>

  function Register(start: bv16, msg: Bytes): bv16 {
    if msg == [] then start else Accumulate(msg[|msg| - 1], Register(start, msg[..|msg| - 1]))
  }

  function Divide(start: bv16, msg: Bytes): bv16 {
    if msg == [] then start else DivideByte(msg[|msg| - 1], Divide(start, msg[..|msg| - 1]))
  }

  const SEED: bv16 := 0xFFFF

  /** For messages of every length the checksum is bit-serial division by the polynomial. */
  lemma {:induction false} ChecksumIsDivision(start: bv16, msg: Bytes)
    ensures Register(start, msg) == Divide(start, msg)
  {
    hide Accumulate, DivideByte;
    if msg != [] {
      ChecksumIsDivision(start, msg[..|msg| - 1]);
      AccumulateDivides(msg[|msg| - 1], Register(start, msg[..|msg| - 1]));
    }
  }

  lemma {:induction false} RegisterConcat(start: bv16, a: Bytes, b: Bytes)
    ensures Register(start, a + b) == Register(Register(start, a), b)
  {
    hide Accumulate;
    if b == [] {
      assert a + b == a;
    } else {
      assert (a + b)[..|a + b| - 1] == a + b[..|b| - 1];
      RegisterConcat(start, a, b[..|b| - 1]);
    }
  }

  lemma {:induction false} TailKeepsApart(c: bv16, d: bv16, tail: Bytes)
    requires Register(c, tail) == Register(d, tail)
    ensures c == d
  {
    hide Accumulate;
    if tail != [] {
      var n := |tail| - 1;
      RegistersStayApart(tail[n], Register(c, tail[..n]), Register(d, tail[..n]));
      TailKeepsApart(c, d, tail[..n]);
    }
  }

  lemma OneByteRecoverable(a: bv8, c: bv8, crc: bv16)
    requires Accumulate(a, crc) == Accumulate(c, crc)
    ensures a == c
  {
    hide Accumulate;
    FirstBytesEqual(a, c, crc, Accumulate(a, crc), Accumulate(c, crc));
  }

  /** At most two bytes into the register are recoverable from it. */
  lemma ShortDamageShows(c: bv16, x: Bytes, y: Bytes)
    requires |x| == |y| <= 2 && Register(c, x) == Register(c, y)
    ensures x == y
  {
    hide Accumulate, Register;
    ShortRegister(c, x);
    ShortRegister(c, y);
    if |x| == 1 {
      OneByteRecoverable(x[0], y[0], c);
    } else if |x| == 2 {
      PairsDiverge(x[0], x[1], y[0], y[1], c);
    }
  }

  lemma RegisterInThree(start: bv16, head: Bytes, x: Bytes, tail: Bytes)
    ensures Register(start, head + x + tail) == Register(Register(Register(start, head), x), tail)
  {
    hide Register;
    RegisterConcat(start, head + x, tail);
    RegisterConcat(start, head, x);
  }

  /** Messages of any length that differ only within one byte, or two adjacent bytes, never
      share a checksum. */
  lemma DamageChangesChecksum(start: bv16, head: Bytes, x: Bytes, y: Bytes, tail: Bytes)
    requires |x| == |y| <= 2 && x != y
    ensures Register(start, head + x + tail) != Register(start, head + y + tail)
  {
    hide Register;
    var c := Register(start, head);
    RegisterInThree(start, head, x, tail);
    RegisterInThree(start, head, y, tail);
    if Register(Register(c, x), tail) == Register(Register(c, y), tail) {
      TailKeepsApart(Register(c, x), Register(c, y), tail);
      ShortDamageShows(c, x, y);
    }
  }

  lemma ShortRegister(c: bv16, x: Bytes)
    requires |x| <= 2
    ensures |x| == 1 ==> Register(c, x) == Accumulate(x[0], c)
    ensures |x| == 2 ==> Register(c, x) == Accumulate(x[1], Accumulate(x[0], c))
  {
    hide Accumulate;
    if |x| == 2 {
      assert x[..1][..0] == [];
      assert Register(c, x[..1]) == Accumulate(x[0], c);
    }
  }

  // ---------------------------------------------------------------- encoders

  method AccumulateAll(msg: Bytes, start: bv16) returns (crc: bv16)
    ensures crc == Register(start, msg)
  {
    hide Accumulate;
    crc := start;
    for i := 0 to |msg|
      invariant crc == Register(start, msg[..i])
    {
      crc := Accumulate(msg[i], crc);
      assert msg[..i + 1][..i] == msg[..i];
    }
    assert msg[..|msg|] == msg;
  }

  /** Checksum of the version 1 encoder: header, payload, then the message's extra byte. */
  method MavlinkCrc(header: Bytes, payload: Bytes, extra: bv8) returns (crc: bv16)
    ensures crc == Register(SEED, header + payload + [extra])
  {
    hide Accumulate;
    crc := AccumulateAll(header, SEED);
    crc := AccumulateAll(payload, crc);
    RegisterConcat(SEED, header, payload);
    assert (header + payload + [extra])[..|header + payload|] == header + payload;
    crc := Accumulate(extra, crc);
  }

  /** Checksum of the version 2 encoder, over one byte vector; the same function. */
  method MavlinkCrcX25(bytes: Bytes, extra: bv8) returns (crc: bv16)
    ensures crc == Register(SEED, bytes + [extra])
  {
    hide Accumulate;
    crc := AccumulateAll(bytes, SEED);
    assert (bytes + [extra])[..|bytes|] == bytes;
    crc := Accumulate(extra, crc);
  }

  function LittleEndian(v: bv16): Bytes {
    [(v & 0xFF) as bv8, (v >> 8) as bv8]
  }

  datatype Result = Packet(bytes: Bytes) | TooLarge

  /** A packet is magic byte, checksummed body, checksum low byte first. */
  function Sealed(magic: bv8, body: Bytes, extra: bv8): Bytes {
    [magic] + body + LittleEndian(Register(SEED, body + [extra]))
  }

  method PacketV1(sequence: bv8, system: bv8, component: bv8, message: bv8, extra: bv8, payload: Bytes) returns (r: Result)
    ensures r.TooLarge? <==> |payload| > 255
    ensures r.Packet? ==>
              r.bytes == Sealed(0xFE, [|payload| as bv8, sequence, system, component, message] + payload, extra)
  {
    if |payload| > 255 {
      return TooLarge;
    }
    var header := [|payload| as bv8, sequence, system, component, message];
    var crc := MavlinkCrc(header, payload, extra);
    return Packet([0xFE] + (header + payload) + LittleEndian(crc));
  }

  method PacketV2(sequence: bv8, system: bv8, component: bv8, message: bv32, extra: bv8, payload: Bytes) returns (r: Result)
    ensures r.TooLarge? <==> |payload| > 255
    ensures r.Packet? ==>
              r.bytes == Sealed(0xFD, [|payload| as bv8, 0, 0, sequence, system, component, (message & 0xFF) as bv8,
                                       ((message >> 8) & 0xFF) as bv8, ((message >> 16) & 0xFF) as bv8] + payload, extra)
  {
    if |payload| > 255 {
      return TooLarge;
    }
    var body := [|payload| as bv8, 0, 0, sequence, system, component, (message & 0xFF) as bv8,
                 ((message >> 8) & 0xFF) as bv8, ((message >> 16) & 0xFF) as bv8] + payload;
    var crc := MavlinkCrcX25(body, extra);
    return Packet([0xFD] + body + LittleEndian(crc));
  }

  lemma LittleEndianInjective(a: bv16, b: bv16)
    requires LittleEndian(a) == LittleEndian(b)
    ensures a == b
  {
    assert LittleEndian(a)[0] == LittleEndian(b)[0] && LittleEndian(a)[1] == LittleEndian(b)[1];
    BothHalves(a, b);
  }

  lemma BothHalves(a: bv16, b: bv16)
    requires a & 0xFF == b & 0xFF && a >> 8 == b >> 8
    ensures a == b
  {}

  lemma LittleEndianReads(v: bv16)
    ensures |LittleEndian(v)| == 2
    ensures (LittleEndian(v)[0] as bv16) | ((LittleEndian(v)[1] as bv16) << 8) == v
  {
    BytesOf(v);
  }

  lemma BytesOf(v: bv16)
    ensures (((v & 0xFF) as bv8) as bv16) == v & 0xFF && (((v >> 8) as bv8) as bv16) == v >> 8
    ensures (v & 0xFF) | ((v >> 8) << 8) == v
  {}

  /** A sealed packet from outside: magic byte, body, and the checksum of body and extra byte, started
      at 0xFFFF, low byte first. */
  lemma SealedLayout(magic: bv8, body: Bytes, extra: bv8)
    ensures var p, n := Sealed(magic, body, extra), |body|;
            && |p| == n + 3 && p[0] == magic && p[1..n + 1] == body
            && (p[n + 1] as bv16) | ((p[n + 2] as bv16) << 8) == Divide(0xFFFF, body + [extra])
  {
    hide Register, Divide, LittleEndian;
    var v := Register(SEED, body + [extra]);
    LittleEndianReads(v);
    ChecksumIsDivision(SEED, body + [extra]);
    assert Sealed(magic, body, extra)[|body| + 1..] == LittleEndian(v);
  }

  /** The published check value of this checksum: the nine digits 1 to 9 give 0x6F91. */
  lemma CheckValue()
    ensures Register(SEED, [0x31, 0x32, 0x33, 0x34, 0x35, 0x36, 0x37, 0x38, 0x39]) == 0x6F91
  {
    hide Accumulate, Register;
    var digits: Bytes := [0x31, 0x32, 0x33, 0x34, 0x35, 0x36, 0x37, 0x38, 0x39];
    RegisterPush(0xFFFF, digits[..0], digits[0], digits[..1]);
    RegisterPush(0xFFFF, digits[..1], digits[1], digits[..2]);
    RegisterPush(0xFFFF, digits[..2], digits[2], digits[..3]);
    RegisterPush(0xFFFF, digits[..3], digits[3], digits[..4]);
    RegisterPush(0xFFFF, digits[..4], digits[4], digits[..5]);
    RegisterPush(0xFFFF, digits[..5], digits[5], digits[..6]);
    RegisterPush(0xFFFF, digits[..6], digits[6], digits[..7]);
    RegisterPush(0xFFFF, digits[..7], digits[7], digits[..8]);
    RegisterPush(0xFFFF, digits[..8], digits[8], digits[..9]);
    assert digits[..0] == [] && digits[..9] == digits;
    DigitSteps();
  }

  lemma DigitSteps()
    ensures Accumulate(0x31, 0xFFFF) == 0x2F8D
    ensures Accumulate(0x32, 0x2F8D) == 0x4D53
    ensures Accumulate(0x33, 0x4D53) == 0x634B
    ensures Accumulate(0x34, 0x634B) == 0x8B13
    ensures Accumulate(0x35, 0x8B13) == 0x44BF
    ensures Accumulate(0x36, 0x44BF) == 0x198D
    ensures Accumulate(0x37, 0x198D) == 0x1AC8
    ensures Accumulate(0x38, 0x1AC8) == 0xF795
    ensures Accumulate(0x39, 0xF795) == 0x6F91
  {}

  lemma RegisterPush(start: bv16, msg: Bytes, byte: bv8, all: Bytes)
    requires all == msg + [byte]
    ensures Register(start, []) == start
    ensures Register(start, all) == Accumulate(byte, Register(start, msg))
  {
    hide Accumulate;
    assert all[..|msg|] == msg;
  }

  /** A sealed packet with one or two adjacent damaged body bytes is not a sealed packet: the
      receiver's checksum test fails on it. */
  lemma DamagedPacketIsRejected(magic: bv8, head: Bytes, x: Bytes, y: Bytes, tail: Bytes, extra: bv8)
    requires |x| == |y| <= 2 && x != y
    ensures [magic] + (head + y + tail) + LittleEndian(Register(SEED, head + x + tail + [extra]))
            != Sealed(magic, head + y + tail, extra)
  {
    hide Register, LittleEndian;
    var sent, got := Register(SEED, head + x + tail + [extra]), Register(SEED, head + y + tail + [extra]);
    DamageChangesChecksum(SEED, head, x, y, tail + [extra]);
    assert head + x + tail + [extra] == head + x + (tail + [extra]);
    assert head + y + tail + [extra] == head + y + (tail + [extra]);
    var body := [magic] + (head + y + tail);
    if body + LittleEndian(sent) == body + LittleEndian(got) {
      assert (body + LittleEndian(sent))[|body|..] == LittleEndian(sent);
      assert (body + LittleEndian(got))[|body|..] == LittleEndian(got);
      LittleEndianInjective(sent, got);
    }
  }
}
