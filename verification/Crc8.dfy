/**
  The two 8-bit check registers of the SDK: the BACnet header check (Annex G of ANSI/ASHRAE
  135, x^8 + x^7 + 1) and the one of libcrc (x^8 + x^2 + x + 1), each with its tables.

  As in `Crc16`, bit operators are confined to the lemmas marked "bits".
 */
module Crc8 {
  import opened Fold

  const BITS: nat := 8

  /** Feedback taps, reflected. */
  const BACNET_TAPS: bv8 := 0x81
  const LIBCRC_TAPS: bv8 := 0xe0

  function Add(a: bv8, b: bv8): bv8 { a ^ b }

  function FirstBit(c: bv8): bv8 { c & 1 }

  function OtherBits(c: bv8): bv8 { c >> 1 }

  /** One clock of the reflected shift register with the given taps. */
  function Clock(taps: bv8, r: bv8): bv8
  {
    (r >> 1) ^ (taps & (0 - (r & 1)))
  }

  function ClockBit(taps: bv8, r: bv8, c: bv8): bv8
  {
    Clock(taps, Add(r, FirstBit(c)))
  }

  /** Clocks the `n` low bits of `c` into the register, least significant bit first. */
  function ShiftIn(taps: bv8, r: bv8, c: bv8, n: nat): bv8
    decreases n
  {
    if n == 0 then r else ShiftIn(taps, ClockBit(taps, r, c), OtherBits(c), n - 1)
  }

  /** The bit-serial register of the BACnet header check after one octet. */
  function BacnetOctet(r: bv8, c: bv8): bv8
  {
    ShiftIn(BACNET_TAPS, r, c, BITS)
  }

  /** The bit-serial register of libcrc after one octet. */
  function LibcrcOctet(r: bv8, c: bv8): bv8
  {
    ShiftIn(LIBCRC_TAPS, r, c, BITS)
  }

  /** The references: the bit-serial registers after a whole buffer. */
  function BacnetRemainder(r: bv8, data: seq<bv8>): bv8
  {
    Run(BacnetOctet, r, data)
  }

  function LibcrcRemainder(r: bv8, data: seq<bv8>): bv8
  {
    Run(LibcrcOctet, r, data)
  }

  /** What the libcrc entry points return. */
  function LibcrcCheck(data: seq<bv8>): bv8
  {
    Add(LibcrcRemainder(0xff, data), 0xff)
  }

  // ----- An octet is added up front, then clocked eight times -----

  function Iterate(taps: bv8, r: bv8, n: nat): bv8
    decreases n
  {
    if n == 0 then r else Iterate(taps, Clock(taps, r), n - 1)
  }

  function Unfed(c: bv8, n: nat): bv8
    decreases n
  {
    if n == 0 then c else Unfed(OtherBits(c), n - 1)
  }

  /** Bits. */
  lemma HigherBitsPassThrough(taps: bv8, r: bv8, c: bv8)
    ensures Clock(taps, Add(r, c)) == Add(ClockBit(taps, r, c), OtherBits(c))
  {
  }

  lemma {:induction false} ShiftInIterates(taps: bv8, r: bv8, c: bv8, n: nat)
    ensures Iterate(taps, Add(r, c), n) == Add(ShiftIn(taps, r, c, n), Unfed(c, n))
    decreases n
  {
    if n > 0 {
      HigherBitsPassThrough(taps, r, c);
      ShiftInIterates(taps, ClockBit(taps, r, c), OtherBits(c), n - 1);
    }
  }

  lemma UnfedAfterEight(c: bv8, n: nat)
    requires n == 8
    ensures Unfed(c, n) == 0
  {
    var c4 := OtherBits(OtherBits(OtherBits(OtherBits(c))));
    assert Unfed(c, 8) == Unfed(OtherBits(OtherBits(c)), 6) == Unfed(c4, 4) == Unfed(OtherBits(OtherBits(c4)), 2);
  }

  /** Bits. */
  lemma AddNothing(a: bv8, z: bv8)
    requires z == 0
    ensures Add(a, z) == a
  {
  }

  lemma ShiftInOctet(taps: bv8, r: bv8, c: bv8)
    ensures ShiftIn(taps, r, c, BITS) == Iterate(taps, Add(r, c), BITS)
  {
    ShiftInIterates(taps, r, c, BITS);
    UnfedAfterEight(c, BITS);
    AddNothing(ShiftIn(taps, r, c, BITS), Unfed(c, BITS));
  }

  lemma IterateEight(taps: bv8, r: bv8, n: nat)
    requires n == 8
    ensures Iterate(taps, r, n) == Eight(taps, r)
  {
    var r2 := Clock(taps, Clock(taps, r));
    var r4 := Clock(taps, Clock(taps, r2));
    var r6 := Clock(taps, Clock(taps, r4));
    assert Iterate(taps, r, 8) == Iterate(taps, r2, 6) == Iterate(taps, r4, 4) == Iterate(taps, r6, 2);
  }

  function Eight(taps: bv8, r: bv8): bv8
  {
    var r4 := Clock(taps, Clock(taps, Clock(taps, Clock(taps, r))));
    Clock(taps, Clock(taps, Clock(taps, Clock(taps, r4))))
  }

  // ----- The BACnet engine -----

  const BACNET_TABLE: seq<seq<bv8>> := [
    [0x00, 0xfe, 0xff, 0x01, 0xfd, 0x03, 0x02, 0xfc, 0xf9, 0x07, 0x06, 0xf8, 0x04, 0xfa, 0xfb, 0x05],
    [0xf1, 0x0f, 0x0e, 0xf0, 0x0c, 0xf2, 0xf3, 0x0d, 0x08, 0xf6, 0xf7, 0x09, 0xf5, 0x0b, 0x0a, 0xf4],
    [0xe1, 0x1f, 0x1e, 0xe0, 0x1c, 0xe2, 0xe3, 0x1d, 0x18, 0xe6, 0xe7, 0x19, 0xe5, 0x1b, 0x1a, 0xe4],
    [0x10, 0xee, 0xef, 0x11, 0xed, 0x13, 0x12, 0xec, 0xe9, 0x17, 0x16, 0xe8, 0x14, 0xea, 0xeb, 0x15],
    [0xc1, 0x3f, 0x3e, 0xc0, 0x3c, 0xc2, 0xc3, 0x3d, 0x38, 0xc6, 0xc7, 0x39, 0xc5, 0x3b, 0x3a, 0xc4],
    [0x30, 0xce, 0xcf, 0x31, 0xcd, 0x33, 0x32, 0xcc, 0xc9, 0x37, 0x36, 0xc8, 0x34, 0xca, 0xcb, 0x35],
    [0x20, 0xde, 0xdf, 0x21, 0xdd, 0x23, 0x22, 0xdc, 0xd9, 0x27, 0x26, 0xd8, 0x24, 0xda, 0xdb, 0x25],
    [0xd1, 0x2f, 0x2e, 0xd0, 0x2c, 0xd2, 0xd3, 0x2d, 0x28, 0xd6, 0xd7, 0x29, 0xd5, 0x2b, 0x2a, 0xd4],
    [0x81, 0x7f, 0x7e, 0x80, 0x7c, 0x82, 0x83, 0x7d, 0x78, 0x86, 0x87, 0x79, 0x85, 0x7b, 0x7a, 0x84],
    [0x70, 0x8e, 0x8f, 0x71, 0x8d, 0x73, 0x72, 0x8c, 0x89, 0x77, 0x76, 0x88, 0x74, 0x8a, 0x8b, 0x75],
    [0x60, 0x9e, 0x9f, 0x61, 0x9d, 0x63, 0x62, 0x9c, 0x99, 0x67, 0x66, 0x98, 0x64, 0x9a, 0x9b, 0x65],
    [0x91, 0x6f, 0x6e, 0x90, 0x6c, 0x92, 0x93, 0x6d, 0x68, 0x96, 0x97, 0x69, 0x95, 0x6b, 0x6a, 0x94],
    [0x40, 0xbe, 0xbf, 0x41, 0xbd, 0x43, 0x42, 0xbc, 0xb9, 0x47, 0x46, 0xb8, 0x44, 0xba, 0xbb, 0x45],
    [0xb1, 0x4f, 0x4e, 0xb0, 0x4c, 0xb2, 0xb3, 0x4d, 0x48, 0xb6, 0xb7, 0x49, 0xb5, 0x4b, 0x4a, 0xb4],
    [0xa1, 0x5f, 0x5e, 0xa0, 0x5c, 0xa2, 0xa3, 0x5d, 0x58, 0xa6, 0xa7, 0x59, 0xa5, 0x5b, 0x5a, 0xa4],
    [0x50, 0xae, 0xaf, 0x51, 0xad, 0x53, 0x52, 0xac, 0xa9, 0x57, 0x56, 0xa8, 0x54, 0xaa, 0xab, 0x55]
  ]

  function BacnetEntry(x: bv8): bv8
  {
    BACNET_TABLE[(x >> 4) as int][(x & 15) as int]
  }

  /** What eight clocks do, without the clocks: running sums of the bits. */
  function BacnetClosed(x: bv8): bv8
  {
    var a := x ^ (x << 1);
    var b := a ^ (a << 2);
    var c := b ^ (b << 4);
    (c & 0xfe) ^ (c >> 7) ^ (x & 1)
  }

  /** Bits. */
  lemma EightIsClosed(x: bv8)
    ensures Eight(0x81, x) == BacnetClosed(x)
  {
  }

  /** Bits, one table row at a time. */
  lemma BacnetEntryIsClosed(x: bv8)
    ensures BacnetEntry(x) == BacnetClosed(x)
  {
    if x >> 4 == 0 {} else if x >> 4 == 1 {} else if x >> 4 == 2 {} else if x >> 4 == 3 {} else if x >> 4 == 4 {}
    else if x >> 4 == 5 {} else if x >> 4 == 6 {} else if x >> 4 == 7 {} else if x >> 4 == 8 {} else if x >> 4 == 9 {}
    else if x >> 4 == 10 {} else if x >> 4 == 11 {} else if x >> 4 == 12 {} else if x >> 4 == 13 {} else if x >> 4 == 14 {} else {}
  }

  function BacnetStep(crc: bv8, c: bv8): bv8
  {
    BacnetEntry(Add(crc, c))
  }

  lemma BacnetOctetIsClosed(crc: bv8, c: bv8)
    ensures BacnetOctet(crc, c) == BacnetClosed(Add(crc, c))
  {
    ShiftInOctet(BACNET_TAPS, crc, c);
    IterateEight(BACNET_TAPS, Add(crc, c), BITS);
    EightIsClosed(Add(crc, c));
  }

  lemma BacnetStepIsSerial(crc: bv8, c: bv8)
    ensures BacnetStep(crc, c) == BacnetOctet(crc, c)
  {
    BacnetOctetIsClosed(crc, c);
    BacnetEntryIsClosed(Add(crc, c));
  }

  method BacnetCrc8(init: bv8, data: seq<bv8>) returns (crc: bv8)
    ensures crc == BacnetRemainder(init, data)
  {
    crc := init;
    for i := 0 to |data|
      invariant crc == BacnetRemainder(init, data[..i])
    {
      RunNext(BacnetOctet, init, data, i);
      BacnetStepIsSerial(crc, data[i]);
      crc := BacnetStep(crc, data[i]);
    }
    assert data[..|data|] == data;
  }

  // ----- The three libcrc engines -----

  const LIBCRC_TABLE: seq<seq<bv8>> := [
    [0x00, 0x91, 0xe3, 0x72, 0x07, 0x96, 0xe4, 0x75, 0x0e, 0x9f, 0xed, 0x7c, 0x09, 0x98, 0xea, 0x7b],
    [0x1c, 0x8d, 0xff, 0x6e, 0x1b, 0x8a, 0xf8, 0x69, 0x12, 0x83, 0xf1, 0x60, 0x15, 0x84, 0xf6, 0x67],
    [0x38, 0xa9, 0xdb, 0x4a, 0x3f, 0xae, 0xdc, 0x4d, 0x36, 0xa7, 0xd5, 0x44, 0x31, 0xa0, 0xd2, 0x43],
    [0x24, 0xb5, 0xc7, 0x56, 0x23, 0xb2, 0xc0, 0x51, 0x2a, 0xbb, 0xc9, 0x58, 0x2d, 0xbc, 0xce, 0x5f],
    [0x70, 0xe1, 0x93, 0x02, 0x77, 0xe6, 0x94, 0x05, 0x7e, 0xef, 0x9d, 0x0c, 0x79, 0xe8, 0x9a, 0x0b],
    [0x6c, 0xfd, 0x8f, 0x1e, 0x6b, 0xfa, 0x88, 0x19, 0x62, 0xf3, 0x81, 0x10, 0x65, 0xf4, 0x86, 0x17],
    [0x48, 0xd9, 0xab, 0x3a, 0x4f, 0xde, 0xac, 0x3d, 0x46, 0xd7, 0xa5, 0x34, 0x41, 0xd0, 0xa2, 0x33],
    [0x54, 0xc5, 0xb7, 0x26, 0x53, 0xc2, 0xb0, 0x21, 0x5a, 0xcb, 0xb9, 0x28, 0x5d, 0xcc, 0xbe, 0x2f],
    [0xe0, 0x71, 0x03, 0x92, 0xe7, 0x76, 0x04, 0x95, 0xee, 0x7f, 0x0d, 0x9c, 0xe9, 0x78, 0x0a, 0x9b],
    [0xfc, 0x6d, 0x1f, 0x8e, 0xfb, 0x6a, 0x18, 0x89, 0xf2, 0x63, 0x11, 0x80, 0xf5, 0x64, 0x16, 0x87],
    [0xd8, 0x49, 0x3b, 0xaa, 0xdf, 0x4e, 0x3c, 0xad, 0xd6, 0x47, 0x35, 0xa4, 0xd1, 0x40, 0x32, 0xa3],
    [0xc4, 0x55, 0x27, 0xb6, 0xc3, 0x52, 0x20, 0xb1, 0xca, 0x5b, 0x29, 0xb8, 0xcd, 0x5c, 0x2e, 0xbf],
    [0x90, 0x01, 0x73, 0xe2, 0x97, 0x06, 0x74, 0xe5, 0x9e, 0x0f, 0x7d, 0xec, 0x99, 0x08, 0x7a, 0xeb],
    [0x8c, 0x1d, 0x6f, 0xfe, 0x8b, 0x1a, 0x68, 0xf9, 0x82, 0x13, 0x61, 0xf0, 0x85, 0x14, 0x66, 0xf7],
    [0xa8, 0x39, 0x4b, 0xda, 0xaf, 0x3e, 0x4c, 0xdd, 0xa6, 0x37, 0x45, 0xd4, 0xa1, 0x30, 0x42, 0xd3],
    [0xb4, 0x25, 0x57, 0xc6, 0xb3, 0x22, 0x50, 0xc1, 0xba, 0x2b, 0x59, 0xc8, 0xbd, 0x2c, 0x5e, 0xcf]
  ]

  const NIBBLES: seq<bv8> := [
    0x00, 0x1c, 0x38, 0x24, 0x70, 0x6c, 0x48, 0x54, 0xe0, 0xfc, 0xd8, 0xc4, 0x90, 0x8c, 0xa8, 0xb4,
    0x00, 0x91, 0xe3, 0x72, 0x07, 0x96, 0xe4, 0x75, 0x0e, 0x9f, 0xed, 0x7c, 0x09, 0x98, 0xea, 0x7b
  ]

  function LibcrcEntry(x: bv8): bv8
  {
    LIBCRC_TABLE[(x >> 4) as int][(x & 15) as int]
  }

  function NibbleEntries(x: bv8): bv8
  {
    NIBBLES[((x & 15) as int) + 16] ^ NIBBLES[(x >> 4) as int]
  }

  /** The table-free step, on the 32-bit `unsigned int` the source uses. */
  function BitwiseExpression(bits: bv32): bv32
  {
    (((bits >> 2) ^ (bits >> 1) ^ bits) & 0x0f) |
    (((bits >> 2) ^ (bits >> 1) ^ bits ^ (bits << 4)) & 0x30) |
    (((bits >> 1) ^ bits ^ (bits << 5)) & 0x40) |
    ((bits ^ (bits << 6) ^ (bits << 7)) & 0x80)
  }

  /** Bits, one table row at a time. */
  lemma LibcrcEntryIsEight(x: bv8)
    ensures LibcrcEntry(x) == Eight(0xe0, x)
  {
    if x >> 4 == 0 {} else if x >> 4 == 1 {} else if x >> 4 == 2 {} else if x >> 4 == 3 {} else if x >> 4 == 4 {}
    else if x >> 4 == 5 {} else if x >> 4 == 6 {} else if x >> 4 == 7 {} else if x >> 4 == 8 {} else if x >> 4 == 9 {}
    else if x >> 4 == 10 {} else if x >> 4 == 11 {} else if x >> 4 == 12 {} else if x >> 4 == 13 {} else if x >> 4 == 14 {} else {}
  }

  /** Bits, one high nibble at a time. */
  lemma NibbleEntriesIsEight(x: bv8)
    ensures NibbleEntries(x) == Eight(0xe0, x)
  {
    if x >> 4 == 0 {} else if x >> 4 == 1 {} else if x >> 4 == 2 {} else if x >> 4 == 3 {} else if x >> 4 == 4 {}
    else if x >> 4 == 5 {} else if x >> 4 == 6 {} else if x >> 4 == 7 {} else if x >> 4 == 8 {} else if x >> 4 == 9 {}
    else if x >> 4 == 10 {} else if x >> 4 == 11 {} else if x >> 4 == 12 {} else if x >> 4 == 13 {} else if x >> 4 == 14 {} else {}
  }

  function Wide32(x: bv8): bv32 { x as bv32 }

  function Add32(a: bv32, b: bv32): bv32 { a ^ b }

  /** Bits. */
  lemma BitwiseExpressionIsEight(x: bv8)
    ensures BitwiseExpression(Wide32(x)) == Wide32(Eight(0xe0, x))
  {
  }

  /** Bits. */
  lemma WideSum(a: bv8, b: bv8)
    ensures Add32(Wide32(a), Wide32(b)) == Wide32(Add(a, b))
  {
  }

  lemma LibcrcOctetIsEight(crc: bv8, c: bv8)
    ensures LibcrcOctet(crc, c) == Eight(0xe0, Add(crc, c))
  {
    ShiftInOctet(LIBCRC_TAPS, crc, c);
    IterateEight(LIBCRC_TAPS, Add(crc, c), BITS);
  }

  method Crc8Bitwise(data: seq<bv8>) returns (check: bv32)
    ensures check == Wide32(LibcrcCheck(data))
  {
    var crc: bv32 := Wide32(0xff);
    for i := 0 to |data|
      invariant crc == Wide32(LibcrcRemainder(0xff, data[..i]))
    {
      ghost var r := LibcrcRemainder(0xff, data[..i]);
      RunNext(LibcrcOctet, 0xff, data, i);
      LibcrcOctetIsEight(r, data[i]);
      WideSum(r, data[i]);
      BitwiseExpressionIsEight(Add(r, data[i]));
      crc := BitwiseExpression(Add32(crc, Wide32(data[i])));
    }
    assert data[..|data|] == data;
    WideSum(LibcrcRemainder(0xff, data), 0xff);
    check := Add32(crc, Wide32(0xff));
  }

  method Crc8Nibbles(data: seq<bv8>) returns (check: bv8)
    ensures check == LibcrcCheck(data)
  {
    var crc: bv8 := 0xff;
    for i := 0 to |data|
      invariant crc == LibcrcRemainder(0xff, data[..i])
    {
      RunNext(LibcrcOctet, 0xff, data, i);
      LibcrcOctetIsEight(crc, data[i]);
      NibbleEntriesIsEight(Add(crc, data[i]));
      crc := NibbleEntries(Add(crc, data[i]));
    }
    assert data[..|data|] == data;
    check := Add(crc, 0xff);
  }

  method Crc8Bytes(data: seq<bv8>) returns (check: bv8)
    ensures check == LibcrcCheck(data)
  {
    var crc: bv8 := 0xff;
    for i := 0 to |data|
      invariant crc == LibcrcRemainder(0xff, data[..i])
    {
      RunNext(LibcrcOctet, 0xff, data, i);
      LibcrcOctetIsEight(crc, data[i]);
      LibcrcEntryIsEight(Add(crc, data[i]));
      crc := LibcrcEntry(Add(crc, data[i]));
    }
    assert data[..|data|] == data;
    check := Add(crc, 0xff);
  }

  // ----- Error detection -----

  /** Bits. */
  lemma ClockInjective(r: bv8, s: bv8)
    requires Clock(BACNET_TAPS, r) == Clock(BACNET_TAPS, s)
    ensures r == s
  {
  }

  lemma {:induction false} IterateInjective(r: bv8, s: bv8, n: nat)
    requires Iterate(BACNET_TAPS, r, n) == Iterate(BACNET_TAPS, s, n)
    ensures r == s
    decreases n
  {
    if n > 0 {
      IterateInjective(Clock(BACNET_TAPS, r), Clock(BACNET_TAPS, s), n - 1);
      ClockInjective(r, s);
    }
  }

  /** Bits. */
  lemma AddInjective(a: bv8, b: bv8, c: bv8)
    ensures Add(a, c) == Add(b, c) ==> a == b
    ensures Add(c, a) == Add(c, b) ==> a == b
  {
  }

  lemma BacnetOctetInjective()
    ensures InjectiveInState(BacnetOctet) && InjectiveInOctet(BacnetOctet)
  {
    forall s: bv8, t: bv8, c: bv8 | BacnetOctet(s, c) == BacnetOctet(t, c)
      ensures s == t
    {
      ShiftInOctet(BACNET_TAPS, s, c);
      ShiftInOctet(BACNET_TAPS, t, c);
      IterateInjective(Add(s, c), Add(t, c), BITS);
      AddInjective(s, t, c);
    }
    forall s: bv8, c: bv8, d: bv8 | BacnetOctet(s, c) == BacnetOctet(s, d)
      ensures c == d
    {
      ShiftInOctet(BACNET_TAPS, s, c);
      ShiftInOctet(BACNET_TAPS, s, d);
      IterateInjective(Add(s, c), Add(s, d), BITS);
      AddInjective(c, d, s);
    }
  }

  /** One corrupted octet, anywhere in a buffer of any length, changes the remainder. */
  lemma OneOctetDetected(r: bv8, data: seq<bv8>, k: nat, c: bv8)
    requires k < |data| && c != data[k]
    ensures BacnetRemainder(r, data[k := c]) != BacnetRemainder(r, data)
  {
    BacnetOctetInjective();
    OneOctetChanges(BacnetOctet, r, data, k, c);
  }

  /** The receiver test of Annex G: octets followed by the complement of their check always leave
      the register at 0x55. */
  lemma GoodHeaderResidue(data: seq<bv8>)
    ensures
      var r := BacnetRemainder(0xff, data);
      BacnetRemainder(0xff, data + [Add(r, 0xff)]) == 0x55
  {
    var r := BacnetRemainder(0xff, data);
    RunAppend(BacnetOctet, 0xff, data, [Add(r, 0xff)]);
    assert [Add(r, 0xff)][1..] == [];
    BacnetOctetIsClosed(r, Add(r, 0xff));
    ResidueIsConstant(r);
  }

  /** Bits. */
  lemma ResidueIsConstant(r: bv8)
    ensures BacnetClosed(Add(r, Add(r, 0xff))) == 0x55
  {
  }

  /** A message followed by its own libcrc check always leaves the register at 0xcf. */
  lemma GoodCheckResidue(data: seq<bv8>)
    ensures LibcrcRemainder(0xff, data + [LibcrcCheck(data)]) == 0xcf
  {
    var r := LibcrcRemainder(0xff, data);
    RunAppend(LibcrcOctet, 0xff, data, [LibcrcCheck(data)]);
    assert [LibcrcCheck(data)][1..] == [];
    LibcrcOctetIsEight(r, LibcrcCheck(data));
    CheckIsConstant(r);
  }

  /** Bits. */
  lemma CheckIsConstant(r: bv8)
    ensures Eight(0xe0, Add(r, Add(r, 0xff))) == 0xcf
  {
  }
}
