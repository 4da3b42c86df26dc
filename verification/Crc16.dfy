/**
  The 16-bit frame check sequence of appendix C of RFC 1662: the reflected register of
  x^16 + x^12 + x^5 + 1, the three independent implementations of it in the SDK, and the
  errors it is guaranteed to detect.

  Bit operators are wrapped in small named functions and confined to the lemmas marked
  "bits": everything else is then proved by equality of terms, not bit by bit.
 */
module Crc16 {
  import opened Fold

  const INIT: bv16 := 0xffff

  /** Bits in an octet. */
  const BITS: nat := 8

  function Add(a: bv16, b: bv16): bv16 { a ^ b }

  function AddOctets(c: bv8, d: bv8): bv8 { c ^ d }

  function Wide(c: bv8): bv16 { c as bv16 }

  function Top(r: bv16): bv16 { r >> 8 }

  function Low(r: bv16): bv8 { (r & 0xff) as bv8 }

  function High(r: bv16): bv8 { (r >> 8) as bv8 }

  function FirstBit(c: bv8): bv16 { (c & 1) as bv16 }

  function OtherBits(c: bv8): bv8 { c >> 1 }

  /** One clock of the shift register; the taps 0x8408 are x^12, x^5 and 1, reflected. */
  function Clock(r: bv16): bv16
  {
    (r >> 1) ^ (0x8408 & (0 - (r & 1)))
  }

  function ClockBit(r: bv16, c: bv8): bv16
  {
    Clock(Add(r, FirstBit(c)))
  }

  /** Clocks the `n` low bits of `c` into the register, least significant bit first. */
  function ShiftIn(r: bv16, c: bv8, n: nat): bv16
    decreases n
  {
    if n == 0 then r else ShiftIn(ClockBit(r, c), OtherBits(c), n - 1)
  }

  /** The register after the octet `c`, one bit at a time. */
  function SerialOctet(r: bv16, c: bv8): bv16
  {
    ShiftIn(r, c, BITS)
  }

  /** The reference: the bit-serial register after a whole buffer. */
  function Remainder(r: bv16, data: seq<bv8>): bv16
  {
    Run(SerialOctet, r, data)
  }

  /** The check sequence sent for `data`. */
  function Fcs(data: seq<bv8>): bv16
  {
    Add(Remainder(INIT, data), 0xffff)
  }

  // ----- Linearity and injectivity, one clock at a time -----

  /** Bits. */
  lemma ClockLinear(s: bv16, t: bv16)
    ensures Clock(Add(s, t)) == Add(Clock(s), Clock(t))
  {
  }

  /** Bits. */
  lemma AddAssociative(a: bv16, b: bv16, c: bv16)
    ensures Add(Add(a, b), c) == Add(a, Add(b, c))
  {
  }

  /** Bits. */
  lemma AddCommutative(a: bv16, b: bv16)
    ensures Add(a, b) == Add(b, a)
  {
  }

  lemma AddSwap(a: bv16, b: bv16, c: bv16, d: bv16)
    ensures Add(Add(a, b), Add(c, d)) == Add(Add(a, c), Add(b, d))
  {
    AddAssociative(a, b, Add(c, d));
    AddAssociative(b, c, d);
    AddCommutative(b, c);
    AddAssociative(c, b, d);
    AddAssociative(a, c, Add(b, d));
  }

  /** Bits. */
  lemma BitsOfSum(c: bv8, d: bv8)
    ensures FirstBit(AddOctets(c, d)) == Add(FirstBit(c), FirstBit(d))
    ensures OtherBits(AddOctets(c, d)) == AddOctets(OtherBits(c), OtherBits(d))
  {
  }

  lemma ClockBitLinear(s: bv16, t: bv16, c: bv8, d: bv8)
    ensures ClockBit(Add(s, t), AddOctets(c, d)) == Add(ClockBit(s, c), ClockBit(t, d))
    ensures OtherBits(AddOctets(c, d)) == AddOctets(OtherBits(c), OtherBits(d))
  {
    BitsOfSum(c, d);
    AddSwap(s, t, FirstBit(c), FirstBit(d));
    ClockLinear(Add(s, FirstBit(c)), Add(t, FirstBit(d)));
  }

  lemma {:induction false} ShiftInLinear(s: bv16, t: bv16, c: bv8, d: bv8, n: nat)
    ensures ShiftIn(Add(s, t), AddOctets(c, d), n) == Add(ShiftIn(s, c, n), ShiftIn(t, d, n))
    decreases n
  {
    if n > 0 {
      ClockBitLinear(s, t, c, d);
      ShiftInLinear(ClockBit(s, c), ClockBit(t, d), OtherBits(c), OtherBits(d), n - 1);
    }
  }

  /** Bits. */
  lemma ClockBitInjective(s: bv16, t: bv16, c: bv8)
    requires ClockBit(s, c) == ClockBit(t, c)
    ensures s == t
  {
  }

  lemma {:induction false} ShiftInInjective(s: bv16, t: bv16, c: bv8, n: nat)
    requires ShiftIn(s, c, n) == ShiftIn(t, c, n)
    ensures s == t
    decreases n
  {
    if n > 0 {
      ShiftInInjective(ClockBit(s, c), ClockBit(t, c), OtherBits(c), n - 1);
      ClockBitInjective(s, t, c);
    }
  }

  // ----- A whole octet in closed form -----

  function Iterate(r: bv16, n: nat): bv16
    decreases n
  {
    if n == 0 then r else Iterate(Clock(r), n - 1)
  }

  /** The bits of `c` still to be fed after `n` clocks. */
  function Unfed(c: bv8, n: nat): bv8
    decreases n
  {
    if n == 0 then c else Unfed(OtherBits(c), n - 1)
  }

  /** Bits. */
  lemma HigherBitsPassThrough(r: bv16, c: bv8)
    ensures Clock(Add(r, Wide(c))) == Add(ClockBit(r, c), Wide(OtherBits(c)))
  {
  }

  /** Feeding bits one at a time is the same as adding them all to the register up front. */
  lemma {:induction false} ShiftInIterates(r: bv16, c: bv8, n: nat)
    ensures Iterate(Add(r, Wide(c)), n) == Add(ShiftIn(r, c, n), Wide(Unfed(c, n)))
    decreases n
  {
    if n > 0 {
      HigherBitsPassThrough(r, c);
      ShiftInIterates(ClockBit(r, c), OtherBits(c), n - 1);
    }
  }

  lemma UnfedAfterEight(c: bv8, n: nat)
    requires n == 8
    ensures Unfed(c, n) == 0
  {
    var c4 := OtherBits(OtherBits(OtherBits(OtherBits(c))));
    assert Unfed(c, 8) == Unfed(OtherBits(OtherBits(c)), 6) == Unfed(c4, 4) == Unfed(OtherBits(OtherBits(c4)), 2);
  }

  lemma {:induction false} IterateLinear(s: bv16, t: bv16, n: nat)
    ensures Iterate(Add(s, t), n) == Add(Iterate(s, n), Iterate(t, n))
    decreases n
  {
    if n > 0 {
      ClockLinear(s, t);
      IterateLinear(Clock(s), Clock(t), n - 1);
    }
  }

  lemma IterateEight(r: bv16)
    ensures Iterate(r, 8) == Clock(Clock(Clock(Clock(Clock(Clock(Clock(Clock(r))))))))
  {
    var r2 := Clock(Clock(r));
    var r4 := Clock(Clock(r2));
    var r6 := Clock(Clock(r4));
    assert Iterate(r, 8) == Iterate(r2, 6) == Iterate(r4, 4) == Iterate(r6, 2);
  }

  /** Closed form of eight clocks: the high half moves down, the low half is spread out. */
  function Closed(x: bv16): bv16
  {
    var t := (x ^ (x << 4)) & 0xff;
    (x >> 8) ^ (t << 8) ^ (t << 3) ^ (t >> 4)
  }

  function HighHalf(x: bv16): bv16 { x & 0xff00 }

  /** Bits. */
  lemma Halves(x: bv16)
    ensures x == Add(HighHalf(x), Wide(Low(x)))
  {
  }

  /** Bits. */
  lemma ClosedByHalves(x: bv16)
    ensures Closed(x) == Add(Top(x), Closed(Wide(Low(x))))
  {
  }

  /** Bits. */
  lemma IterateLowHalf(y: bv8, n: nat)
    requires n == 8
    ensures Iterate(Wide(y), n) == Closed(Wide(y))
  {
    IterateEight(Wide(y));
  }

  /** Bits. */
  lemma IterateHighHalf(x: bv16, n: nat)
    requires n == 8
    ensures Iterate(HighHalf(x), n) == Top(x)
  {
    IterateEight(HighHalf(x));
  }

  lemma IterateIsClosed(x: bv16, n: nat)
    requires n == 8
    ensures Iterate(x, n) == Closed(x)
  {
    Halves(x);
    IterateLinear(HighHalf(x), Wide(Low(x)), n);
    IterateHighHalf(x, n);
    IterateLowHalf(Low(x), n);
    ClosedByHalves(x);
  }

  /** Bits. */
  lemma AddNothing(a: bv16, c: bv8)
    requires c == 0
    ensures Add(a, Wide(c)) == a
  {
  }

  lemma SerialOctetClosed(r: bv16, c: bv8)
    ensures SerialOctet(r, c) == Closed(Add(r, Wide(c)))
  {
    ShiftInIterates(r, c, BITS);
    UnfedAfterEight(c, BITS);
    AddNothing(ShiftIn(r, c, BITS), Unfed(c, BITS));
    IterateIsClosed(Add(r, Wide(c)), BITS);
  }

  // ----- The three implementations -----

  /** The byte table, 256 entries as sixteen rows of sixteen. */
  const TABLE: seq<seq<bv16>> := [
    [0x0000, 0x1189, 0x2312, 0x329b, 0x4624, 0x57ad, 0x6536, 0x74bf, 0x8c48, 0x9dc1, 0xaf5a, 0xbed3, 0xca6c, 0xdbe5, 0xe97e, 0xf8f7],
    [0x1081, 0x0108, 0x3393, 0x221a, 0x56a5, 0x472c, 0x75b7, 0x643e, 0x9cc9, 0x8d40, 0xbfdb, 0xae52, 0xdaed, 0xcb64, 0xf9ff, 0xe876],
    [0x2102, 0x308b, 0x0210, 0x1399, 0x6726, 0x76af, 0x4434, 0x55bd, 0xad4a, 0xbcc3, 0x8e58, 0x9fd1, 0xeb6e, 0xfae7, 0xc87c, 0xd9f5],
    [0x3183, 0x200a, 0x1291, 0x0318, 0x77a7, 0x662e, 0x54b5, 0x453c, 0xbdcb, 0xac42, 0x9ed9, 0x8f50, 0xfbef, 0xea66, 0xd8fd, 0xc974],
    [0x4204, 0x538d, 0x6116, 0x709f, 0x0420, 0x15a9, 0x2732, 0x36bb, 0xce4c, 0xdfc5, 0xed5e, 0xfcd7, 0x8868, 0x99e1, 0xab7a, 0xbaf3],
    [0x5285, 0x430c, 0x7197, 0x601e, 0x14a1, 0x0528, 0x37b3, 0x263a, 0xdecd, 0xcf44, 0xfddf, 0xec56, 0x98e9, 0x8960, 0xbbfb, 0xaa72],
    [0x6306, 0x728f, 0x4014, 0x519d, 0x2522, 0x34ab, 0x0630, 0x17b9, 0xef4e, 0xfec7, 0xcc5c, 0xddd5, 0xa96a, 0xb8e3, 0x8a78, 0x9bf1],
    [0x7387, 0x620e, 0x5095, 0x411c, 0x35a3, 0x242a, 0x16b1, 0x0738, 0xffcf, 0xee46, 0xdcdd, 0xcd54, 0xb9eb, 0xa862, 0x9af9, 0x8b70],
    [0x8408, 0x9581, 0xa71a, 0xb693, 0xc22c, 0xd3a5, 0xe13e, 0xf0b7, 0x0840, 0x19c9, 0x2b52, 0x3adb, 0x4e64, 0x5fed, 0x6d76, 0x7cff],
    [0x9489, 0x8500, 0xb79b, 0xa612, 0xd2ad, 0xc324, 0xf1bf, 0xe036, 0x18c1, 0x0948, 0x3bd3, 0x2a5a, 0x5ee5, 0x4f6c, 0x7df7, 0x6c7e],
    [0xa50a, 0xb483, 0x8618, 0x9791, 0xe32e, 0xf2a7, 0xc03c, 0xd1b5, 0x2942, 0x38cb, 0x0a50, 0x1bd9, 0x6f66, 0x7eef, 0x4c74, 0x5dfd],
    [0xb58b, 0xa402, 0x9699, 0x8710, 0xf3af, 0xe226, 0xd0bd, 0xc134, 0x39c3, 0x284a, 0x1ad1, 0x0b58, 0x7fe7, 0x6e6e, 0x5cf5, 0x4d7c],
    [0xc60c, 0xd785, 0xe51e, 0xf497, 0x8028, 0x91a1, 0xa33a, 0xb2b3, 0x4a44, 0x5bcd, 0x6956, 0x78df, 0x0c60, 0x1de9, 0x2f72, 0x3efb],
    [0xd68d, 0xc704, 0xf59f, 0xe416, 0x90a9, 0x8120, 0xb3bb, 0xa232, 0x5ac5, 0x4b4c, 0x79d7, 0x685e, 0x1ce1, 0x0d68, 0x3ff3, 0x2e7a],
    [0xe70e, 0xf687, 0xc41c, 0xd595, 0xa12a, 0xb0a3, 0x8238, 0x93b1, 0x6b46, 0x7acf, 0x4854, 0x59dd, 0x2d62, 0x3ceb, 0x0e70, 0x1ff9],
    [0xf78f, 0xe606, 0xd49d, 0xc514, 0xb1ab, 0xa022, 0x92b9, 0x8330, 0x7bc7, 0x6a4e, 0x58d5, 0x495c, 0x3de3, 0x2c6a, 0x1ef1, 0x0f78]
  ]

  function Entry(x: bv8): bv16
  {
    TABLE[(x >> 4) as int][(x & 15) as int]
  }

  /** Bits, one table row at a time. */
  lemma EntryIsClosed(x: bv8)
    ensures Entry(x) == Closed(Wide(x))
  {
    if x >> 4 == 0 {} else if x >> 4 == 1 {} else if x >> 4 == 2 {} else if x >> 4 == 3 {} else if x >> 4 == 4 {}
    else if x >> 4 == 5 {} else if x >> 4 == 6 {} else if x >> 4 == 7 {} else if x >> 4 == 8 {} else if x >> 4 == 9 {}
    else if x >> 4 == 10 {} else if x >> 4 == 11 {} else if x >> 4 == 12 {} else if x >> 4 == 13 {} else if x >> 4 == 14 {} else {}
  }

  /** The nibble tables: sixteen corrections for the high nibble, then sixteen for the low one. */
  const NIBBLES: seq<bv16> := [
    0x0000, 0x1081, 0x2102, 0x3183, 0x4204, 0x5285, 0x6306, 0x7387,
    0x8408, 0x9489, 0xa50a, 0xb58b, 0xc60c, 0xd68d, 0xe70e, 0xf78f,
    0x0000, 0x1189, 0x2312, 0x329b, 0x4624, 0x57ad, 0x6536, 0x74bf,
    0x8c48, 0x9dc1, 0xaf5a, 0xbed3, 0xca6c, 0xdbe5, 0xe97e, 0xf8f7
  ]

  function ByteTableStep(crc: bv16, c: bv8): bv16
  {
    Add(Top(crc), Entry(AddOctets(Low(crc), c)))
  }

  function NibbleTableStep(crc: bv16, c: bv8): bv16
  {
    var x := Add(crc, Wide(c));
    Add(Add(Top(x), HighNibbleEntry(x)), LowNibbleEntry(x))
  }

  function HighNibbleEntry(x: bv16): bv16
  {
    NIBBLES[((x >> 4) & 15) as int]
  }

  function LowNibbleEntry(x: bv16): bv16
  {
    NIBBLES[((x & 15) as int) + 16]
  }

  /** The table-free step, on the 32-bit `unsigned int` the source uses. */
  function BitwiseStep(crc: bv32, c: bv8): bv32
  {
    SpreadHigh(Add32(SwapHalves(crc), High32(c)))
  }

  function Add32(a: bv32, b: bv32): bv32 { a ^ b }

  function Wide32(x: bv16): bv32 { x as bv32 }

  function High32(c: bv8): bv32 { (c as bv32) << 8 }

  function SwapHalves(crc: bv32): bv32 { (crc >> 8) | ((crc & 0xff) << 8) }

  function SpreadHigh(crc0: bv32): bv32
  {
    var crc := crc0 ^ ((crc0 << 4) & 0xf000);
    var crc := crc ^ ((crc >> 12) & 0x000f);
    crc ^ ((crc >> 5) & 0x07f8)
  }

  /** Bits. */
  lemma HalvesOfSum(crc: bv16, c: bv8)
    ensures Top(Add(crc, Wide(c))) == Top(crc) && Low(Add(crc, Wide(c))) == AddOctets(Low(crc), c)
  {
  }

  lemma ByteTableStepIsSerial(crc: bv16, c: bv8)
    ensures ByteTableStep(crc, c) == SerialOctet(crc, c)
  {
    SerialOctetClosed(crc, c);
    ClosedByHalves(Add(crc, Wide(c)));
    HalvesOfSum(crc, c);
    EntryIsClosed(AddOctets(Low(crc), c));
  }

  /** Bits. */
  lemma LowNibbleEntryIsClosed(x: bv16)
    ensures LowNibbleEntry(x) == Closed(x & 15)
  {
    var n := x & 15;
    if n == 0 {} else if n == 1 {} else if n == 2 {} else if n == 3 {} else if n == 4 {} else if n == 5 {} else if n == 6 {} else if n == 7 {}
    else if n == 8 {} else if n == 9 {} else if n == 10 {} else if n == 11 {} else if n == 12 {} else if n == 13 {} else if n == 14 {} else {}
  }

  /** Bits. */
  lemma HighNibbleEntryIsClosed(x: bv16)
    ensures HighNibbleEntry(x) == Closed(x & 0xf0)
  {
    var n := (x >> 4) & 15;
    if n == 0 {} else if n == 1 {} else if n == 2 {} else if n == 3 {} else if n == 4 {} else if n == 5 {} else if n == 6 {} else if n == 7 {}
    else if n == 8 {} else if n == 9 {} else if n == 10 {} else if n == 11 {} else if n == 12 {} else if n == 13 {} else if n == 14 {} else {}
  }

  /** Bits. */
  lemma ClosedByNibbles(x: bv16)
    ensures Closed(x) == Add(Add(Top(x), Closed(x & 0xf0)), Closed(x & 15))
  {
  }

  lemma NibbleTableStepIsSerial(crc: bv16, c: bv8)
    ensures NibbleTableStep(crc, c) == SerialOctet(crc, c)
  {
    var x := Add(crc, Wide(c));
    SerialOctetClosed(crc, c);
    ClosedByNibbles(x);
    HighNibbleEntryIsClosed(x);
    LowNibbleEntryIsClosed(x);
  }

  /** Bits. */
  lemma SwapIsByHalves(crc: bv16, c: bv8)
    ensures Add32(SwapHalves(Wide32(crc)), High32(c)) == Add32(Wide32(Top(crc)), High32(AddOctets(Low(crc), c)))
    ensures Top(crc) <= 255
  {
  }

  /** Bits. */
  lemma SpreadLeavesLow(t: bv16, y: bv8)
    requires t <= 255
    ensures SpreadHigh(Add32(Wide32(t), High32(y))) == Add32(Wide32(t), SpreadHigh(High32(y)))
  {
  }

  /** Bits. */
  lemma SpreadIsClosed(y: bv8)
    ensures SpreadHigh(High32(y)) == Wide32(Closed(Wide(y)))
  {
  }

  /** Bits. */
  lemma WideSum(a: bv16, b: bv16)
    ensures Add32(Wide32(a), Wide32(b)) == Wide32(Add(a, b))
  {
  }

  lemma BitwiseStepIsSerial(crc: bv16, c: bv8)
    ensures BitwiseStep(Wide32(crc), c) == Wide32(SerialOctet(crc, c))
  {
    var y := AddOctets(Low(crc), c);
    SwapIsByHalves(crc, c);
    SpreadLeavesLow(Top(crc), y);
    SpreadIsClosed(y);
    WideSum(Top(crc), Closed(Wide(y)));
    SerialOctetClosed(crc, c);
    ClosedByHalves(Add(crc, Wide(c)));
    HalvesOfSum(crc, c);
  }

  method Crc16Bitwise(data: seq<bv8>) returns (fcs: bv32)
    ensures fcs == Wide32(Fcs(data))
  {
    var crc: bv32 := 0xffff;
    for i := 0 to |data|
      invariant crc == Wide32(Remainder(INIT, data[..i]))
    {
      RunNext(SerialOctet, INIT, data, i);
      BitwiseStepIsSerial(Remainder(INIT, data[..i]), data[i]);
      crc := BitwiseStep(crc, data[i]);
    }
    assert data[..|data|] == data;
    WideSum(Remainder(INIT, data), 0xffff);
    fcs := Add32(crc, Wide32(0xffff));
  }

  method Crc16Nibbles(data: seq<bv8>) returns (fcs: bv16)
    ensures fcs == Fcs(data)
  {
    var crc := INIT;
    for i := 0 to |data|
      invariant crc == Remainder(INIT, data[..i])
    {
      RunNext(SerialOctet, INIT, data, i);
      NibbleTableStepIsSerial(crc, data[i]);
      crc := NibbleTableStep(crc, data[i]);
    }
    assert data[..|data|] == data;
    fcs := Add(crc, 0xffff);
  }

  method Crc16Bytes(data: seq<bv8>) returns (fcs: bv16)
    ensures fcs == Fcs(data)
  {
    var crc := INIT;
    for i := 0 to |data|
      invariant crc == Remainder(INIT, data[..i])
    {
      RunNext(SerialOctet, INIT, data, i);
      ByteTableStepIsSerial(crc, data[i]);
      crc := ByteTableStep(crc, data[i]);
    }
    assert data[..|data|] == data;
    fcs := Add(crc, 0xffff);
  }

  /** The BACnet library's engine: the same byte table, any starting register, no final complement. */
  method BacnetCrc16(init: bv16, data: seq<bv8>) returns (crc: bv16)
    ensures crc == Remainder(init, data)
  {
    crc := init;
    for i := 0 to |data|
      invariant crc == Remainder(init, data[..i])
    {
      RunNext(SerialOctet, init, data, i);
      ByteTableStepIsSerial(crc, data[i]);
      crc := ByteTableStep(crc, data[i]);
    }
    assert data[..|data|] == data;
  }

  // ----- Error detection -----

  /** Bits. */
  lemma ClosedKernel(x: bv16)
    requires Closed(x) == 0
    ensures x == 0
  {
  }

  /** Bits. */
  lemma CancelSelf(s: bv16, c: bv8, d: bv8, a: bv16)
    ensures Add(a, a) == 0
    ensures Add(Add(s, s), Wide(AddOctets(c, d))) == 0 ==> c == d
  {
  }

  lemma SerialOctetInjective()
    ensures InjectiveInState(SerialOctet) && InjectiveInOctet(SerialOctet)
  {
    forall s: bv16, t: bv16, c: bv8 | SerialOctet(s, c) == SerialOctet(t, c)
      ensures s == t
    {
      ShiftInInjective(s, t, c, BITS);
    }
    forall s: bv16, c: bv8, d: bv8 | SerialOctet(s, c) == SerialOctet(s, d)
      ensures c == d
    {
      ShiftInLinear(s, s, c, d, BITS);
      SerialOctetClosed(Add(s, s), AddOctets(c, d));
      CancelSelf(s, c, d, SerialOctet(s, c));
      ClosedKernel(Add(Add(s, s), Wide(AddOctets(c, d))));
    }
  }

  /** One corrupted octet, anywhere in a buffer of any length, changes the remainder. */
  lemma OneOctetDetected(r: bv16, data: seq<bv8>, k: nat, c: bv8)
    requires k < |data| && c != data[k]
    ensures Remainder(r, data[k := c]) != Remainder(r, data)
  {
    SerialOctetInjective();
    OneOctetChanges(SerialOctet, r, data, k, c);
  }

  /** What the line adds to `a` to turn it into another buffer of the same length. */
  function Corrupt(a: seq<bv8>, e: seq<bv8>): (x: seq<bv8>)
    requires |a| == |e|
    ensures |x| == |a| && forall i :: 0 <= i < |a| ==> x[i] == AddOctets(a[i], e[i])
  {
    seq(|a|, i requires 0 <= i < |a| => AddOctets(a[i], e[i]))
  }

  lemma {:induction false} RemainderLinear(s: bv16, t: bv16, a: seq<bv8>, b: seq<bv8>)
    requires |a| == |b|
    ensures Remainder(Add(s, t), Corrupt(a, b)) == Add(Remainder(s, a), Remainder(t, b))
    decreases |a|
  {
    if a != [] {
      ShiftInLinear(s, t, a[0], b[0], BITS);
      assert Corrupt(a, b)[1..] == Corrupt(a[1..], b[1..]);
      RemainderLinear(SerialOctet(s, a[0]), SerialOctet(t, b[0]), a[1..], b[1..]);
    }
  }

  /** The three octets that a run of at most sixteen bits starting at bit `shift` spans. */
  function Window(bits: bv16, shift: bv4): (w: seq<bv8>)
    requires shift <= 8
    ensures |w| == 3
  {
    var w := (bits as bv24) << shift;
    [(w & 0xff) as bv8, ((w >> 8) & 0xff) as bv8, ((w >> 16) & 0xff) as bv8]
  }

  function Zeros(n: nat): (z: seq<bv8>)
    ensures |z| == n
  {
    seq(n, i => 0)
  }

  /** The error pattern with `w` at octet `k` and zeros elsewhere. */
  function ErrorAt(n: nat, k: nat, w: seq<bv8>): (e: seq<bv8>)
    requires k + |w| <= n
    ensures |e| == n
  {
    Zeros(k) + w + Zeros(n - k - |w|)
  }

  /** Bits. */
  lemma ClosedZero(c: bv8)
    requires c == 0
    ensures Closed(Add(0, Wide(c))) == 0
  {
  }

  lemma {:induction false} ZerosKeepZero(n: nat)
    ensures Remainder(0, Zeros(n)) == 0
  {
    if n > 0 {
      SerialOctetClosed(0, Zeros(n)[0]);
      ClosedZero(Zeros(n)[0]);
      assert Zeros(n)[1..] == Zeros(n - 1);
      ZerosKeepZero(n - 1);
    }
  }

  lemma WindowRemainder(bits: bv16, shift: bv4)
    requires bits != 0 && shift <= 8
    ensures Remainder(0, Window(bits, shift)) != 0
  {
    var w := Window(bits, shift);
    RunThree(SerialOctet, 0, w);
    var r1 := SerialOctet(0, w[0]);
    var r2 := SerialOctet(r1, w[1]);
    SerialOctetClosed(0, w[0]);
    SerialOctetClosed(r1, w[1]);
    SerialOctetClosed(r2, w[2]);
    WindowKernel(bits, shift);
  }

  /** Bits. */
  lemma WindowKernel(bits: bv16, shift: bv4)
    requires bits != 0 && shift <= 8
    ensures
      var w := Window(bits, shift);
      Closed(Add(Closed(Add(Closed(Add(0, Wide(w[0]))), Wide(w[1]))), Wide(w[2]))) != 0
  {
  }

  /** A burst with room for its three octets. */
  lemma InnerBurstDetected(r: bv16, data: seq<bv8>, k: nat, bits: bv16, shift: bv4)
    requires bits != 0 && shift <= 8 && k + 3 <= |data|
    ensures Remainder(r, Corrupt(data, ErrorAt(|data|, k, Window(bits, shift)))) != Remainder(r, data)
  {
    var w := Window(bits, shift);
    var tail := Zeros(|data| - k - 3);
    var e := ErrorAt(|data|, k, w);
    RemainderLinear(r, 0, data, e);
    RunAppend(SerialOctet, 0, Zeros(k) + w, tail);
    RunAppend(SerialOctet, 0, Zeros(k), w);
    ZerosKeepZero(k);
    ZerosKeepZero(|tail|);
    WindowRemainder(bits, shift);
    SerialOctetInjective();
    RunInjective(SerialOctet, Remainder(0, w), 0, tail);
    AddSomething(r, 0, Remainder(r, data), Remainder(0, e));
  }

  /** The part of an error pattern that falls on the first `n` octets. */
  function Burst(n: nat, k: nat, bits: bv16, shift: bv4): (e: seq<bv8>)
    requires shift <= 8 && k < n
    ensures |e| == n
  {
    ErrorAt(n + 2, k, Window(bits, shift))[..n]
  }

  /** No bit of the burst falls past the end of the message. */
  predicate Within(n: nat, k: nat, bits: bv16, shift: bv4)
    requires shift <= 8 && k < n
  {
    ErrorAt(n + 2, k, Window(bits, shift))[n..] == Zeros(2)
  }

  /** Every error burst of at most sixteen bits, at any bit position of a message of any
      length, changes the remainder. */
  lemma BurstDetected(r: bv16, data: seq<bv8>, k: nat, bits: bv16, shift: bv4)
    requires bits != 0 && shift <= 8 && k < |data| && Within(|data|, k, bits, shift)
    ensures Remainder(r, Corrupt(data, Burst(|data|, k, bits, shift))) != Remainder(r, data)
  {
    hide Window, ErrorAt;
    var longer, e := data + Zeros(2), Burst(|data|, k, bits, shift);
    var whole := ErrorAt(|longer|, k, Window(bits, shift));
    InnerBurstDetected(r, longer, k, bits, shift);
    assert whole == e + Zeros(2);
    ZerosAddNothing();
    assert Corrupt(longer, whole) == Corrupt(data, e) + Zeros(2);
    RunAppend(SerialOctet, r, Corrupt(data, e), Zeros(2));
    RunAppend(SerialOctet, r, data, Zeros(2));
  }

  /** Bits. */
  lemma ZerosAddNothing()
    ensures AddOctets(0, 0) == 0
  {
  }

  /** Bits. */
  lemma AddSomething(r: bv16, z: bv16, a: bv16, e: bv16)
    requires z == 0 && e != 0
    ensures Add(r, z) == r && Add(a, e) != a
  {
  }

  /** RFC 1662's receiver test: a message followed by its own check sequence, low octet
      first, always leaves the register at 0xf0b8. */
  lemma GoodFcsResidue(data: seq<bv8>)
    ensures Remainder(INIT, data + [Low(Fcs(data)), High(Fcs(data))]) == 0xf0b8
  {
    var r, f := Remainder(INIT, data), Fcs(data);
    RunAppend(SerialOctet, INIT, data, [Low(f), High(f)]);
    RunTwo(SerialOctet, r, [Low(f), High(f)]);
    SerialOctetClosed(r, Low(f));
    SerialOctetClosed(SerialOctet(r, Low(f)), High(f));
    ResidueIsConstant(r);
  }

  /** Bits. */
  lemma ResidueIsConstant(r: bv16)
    ensures
      var f := Add(r, 0xffff);
      Closed(Add(Closed(Add(r, Wide(Low(f)))), Wide(High(f)))) == 0xf0b8
  {
  }
}
