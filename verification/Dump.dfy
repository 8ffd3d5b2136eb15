/** DUMP payloads: the serialised value, two bytes of format version and the CRC-64 of all that. A payload that was
    changed in any one byte is refused. */
module Dump {
  import opened CrcTable

  const RDB_VERSION: bv16 := 8

  /** One step of crc64. */
  function Feed(crc: bv64, byte: bv8): bv64 {
    Table(Low(crc) ^ byte) ^ (crc >> 8)
  }

  function Low(crc: bv64): bv8 {
    (crc & 0xFF) as bv8
  }

  function Crc(crc: bv64, s: seq<bv8>): bv64
    decreases |s|
  {
    if s == [] then crc else Crc(Feed(crc, s[0]), s[1..])
  }

  lemma {:induction false} CrcConcat(crc: bv64, a: seq<bv8>, b: seq<bv8>)
    ensures Crc(crc, a + b) == Crc(Crc(crc, a), b)
    decreases |a|
  {
    hide Feed;
    if a == [] {
      assert a + b == b;
    } else {
      assert (a + b)[0] == a[0] && (a + b)[1..] == a[1..] + b;
      CrcConcat(Feed(crc, a[0]), a[1..], b);
    }
  }

  // ----- the step is division -----

  /** The bits of a byte that are left after k of them, held in a register. */
  function Rests(b: bv8): (r: seq<bv64>)
    ensures |r| == 9
  {
    var x := b as bv64;
    [x, x >> 1, x >> 2, x >> 3, x >> 4, x >> 5, x >> 6, x >> 7, 0]
  }

  /** The bits of a byte, the lowest first: the order in which this CRC takes them. */
  function BitsOf(b: bv8): (bits: seq<bv64>)
    ensures |bits| == 8
  {
    seq(8, k requires 0 <= k < 8 => Rests(b)[k] & 1)
  }

  function Message(s: seq<bv8>): seq<bv64> {
    if s == [] then [] else BitsOf(s[0]) + Message(s[1..])
  }

  /** The remainder of a message divided by the polynomial, bit by bit: each bit is added to the bit that leaves the
      register, and where the sum is 1 the polynomial is subtracted. */
  function Remainder(crc: bv64, bits: seq<bv64>): bv64
    decreases |bits|
  {
    if bits == [] then crc else Remainder(Enter(crc, bits[0]), bits[1..])
  }

  /** Addition of polynomials over two elements. */
  function Plus(a: bv64, b: bv64): bv64 {
    a ^ b
  }

  lemma LowestIsBit(a: bv64)
    ensures a & 1 == 0 || a & 1 == 1
  {
  }

  lemma EvenEven(a: bv64, b: bv64)
    requires a & 1 == 0 && b & 1 == 0
    ensures (a ^ b) & 1 == 0 && (a ^ b) >> 1 == (a >> 1) ^ (b >> 1)
  {
  }

  lemma OddOdd(a: bv64, b: bv64)
    requires a & 1 == 1 && b & 1 == 1
    ensures (a ^ b) & 1 == 0 && (a ^ b) >> 1 == ((a >> 1) ^ POLYNOMIAL) ^ ((b >> 1) ^ POLYNOMIAL)
  {
  }

  lemma OddEven(a: bv64, b: bv64)
    requires a & 1 == 1 && b & 1 == 0
    ensures (a ^ b) & 1 == 1 && ((a ^ b) >> 1) ^ POLYNOMIAL == ((a >> 1) ^ POLYNOMIAL) ^ (b >> 1)
  {
  }

  lemma EvenOdd(a: bv64, b: bv64)
    requires a & 1 == 0 && b & 1 == 1
    ensures (a ^ b) & 1 == 1 && ((a ^ b) >> 1) ^ POLYNOMIAL == (a >> 1) ^ ((b >> 1) ^ POLYNOMIAL)
  {
  }

  lemma EqualParities(a: bv64, b: bv64)
    requires a & 1 == b & 1
    ensures ShiftOut(a ^ b) == ShiftOut(a) ^ ShiftOut(b)
  {
    LowestIsBit(a);
    if a & 1 == 0 {
      EvenEven(a, b);
    } else {
      OddOdd(a, b);
    }
  }

  lemma OtherParities(a: bv64, b: bv64)
    requires a & 1 != b & 1
    ensures ShiftOut(a ^ b) == ShiftOut(a) ^ ShiftOut(b)
  {
    LowestIsBit(a);
    LowestIsBit(b);
    if a & 1 == 1 {
      OddEven(a, b);
    } else {
      EvenOdd(a, b);
    }
  }

  /** Division is linear. */
  lemma ShiftOutAdds(a: bv64, b: bv64)
    ensures ShiftOut(Plus(a, b)) == Plus(ShiftOut(a), ShiftOut(b))
  {
    hide ShiftOut;
    if a & 1 == b & 1 {
      EqualParities(a, b);
    } else {
      OtherParities(a, b);
    }
  }

  lemma PlusAssoc(x: bv64, y: bv64, p: bv64)
    ensures Plus(x, Plus(y, p)) == Plus(Plus(x, y), p)
  {
    assert x ^ (y ^ p) == (x ^ y) ^ p;
  }

  lemma EightShiftsAdd(a: bv64, b: bv64)
    ensures EightShifts(Plus(a, b)) == Plus(EightShifts(a), EightShifts(b))
  {
    hide ShiftOut, Plus;
    var x, y := a, b;
    ShiftOutAdds(x, y);
    x, y := ShiftOut(x), ShiftOut(y);
    ShiftOutAdds(x, y);
    x, y := ShiftOut(x), ShiftOut(y);
    ShiftOutAdds(x, y);
    x, y := ShiftOut(x), ShiftOut(y);
    ShiftOutAdds(x, y);
    x, y := ShiftOut(x), ShiftOut(y);
    ShiftOutAdds(x, y);
    x, y := ShiftOut(x), ShiftOut(y);
    ShiftOutAdds(x, y);
    x, y := ShiftOut(x), ShiftOut(y);
    ShiftOutAdds(x, y);
    x, y := ShiftOut(x), ShiftOut(y);
    ShiftOutAdds(x, y);
  }

  /** What has no low bits is only shifted. */
  lemma HighBitsShift(crc: bv64)
    ensures EightShifts((crc >> 8) << 8) == crc >> 8
  {
  }

  lemma LowAndHigh(crc: bv64, byte: bv8)
    ensures Plus(crc, byte as bv64) == Plus((Low(crc) ^ byte) as bv64, (crc >> 8) << 8)
  {
  }

  lemma FeedIsPlus(crc: bv64, byte: bv8)
    ensures Feed(crc, byte) == Plus(Table(Low(crc) ^ byte), crc >> 8)
  {
    hide Table, Low;
  }

  lemma EntryIsShifts(b: bv8)
    ensures Entry(b) == EightShifts(b as bv64)
  {
    hide EightShifts;
  }

  /** One table step divides by the polynomial eight times. */
  lemma StepIsDivision(crc: bv64, byte: bv8)
    ensures Feed(crc, byte) == EightShifts(Plus(crc, byte as bv64))
  {
    var low, high := Low(crc) ^ byte, (crc >> 8) << 8;
    FeedIsPlus(crc, byte);
    TableIsPolynomial(low);
    EntryIsShifts(low);
    LowAndHigh(crc, byte);
    EightShiftsAdd(low as bv64, high);
    HighBitsShift(crc);
    hide Table, EightShifts, Low, Plus, Feed, Entry;
  }

  lemma LowestAndRest(x: bv64)
    ensures x == Plus(x & 1, (x >> 1) << 1)
  {
  }

  lemma EvenShifts(x: bv64)
    ensures ShiftOut((x >> 1) << 1) == x >> 1
  {
  }

  /** Of a number added to the register only the lowest bit meets the polynomial; the others wait. */
  lemma OneBitIn(crc: bv64, x: bv64)
    ensures ShiftOut(Plus(crc, x)) == Plus(ShiftOut(Plus(crc, x & 1)), x >> 1)
  {
    LowestAndRest(x);
    PlusAssoc(crc, x & 1, (x >> 1) << 1);
    ShiftOutAdds(Plus(crc, x & 1), (x >> 1) << 1);
    EvenShifts(x);
    hide Plus, ShiftOut;
  }

  lemma LowestOfRest(b: bv8, k: nat)
    requires k < 8
    ensures Rests(b)[k] & 1 == BitsOf(b)[k]
  {
    hide Rests;
  }

  lemma ShiftsAddUp(x: bv64)
    ensures (x >> 1) >> 1 == x >> 2 && (x >> 2) >> 1 == x >> 3 && (x >> 3) >> 1 == x >> 4 && (x >> 4) >> 1 == x >> 5
    ensures (x >> 5) >> 1 == x >> 6 && (x >> 6) >> 1 == x >> 7
  {
  }

  lemma LastShift(b: bv8)
    ensures ((b as bv64) >> 7) >> 1 == 0
  {
  }

  lemma RestOfRest(b: bv8, k: nat)
    requires k < 8
    ensures Rests(b)[k] >> 1 == Rests(b)[k + 1]
  {
    ShiftsAddUp(b as bv64);
    LastShift(b);
    if k == 0 {
    } else if k == 1 {
    } else if k == 2 {
    } else if k == 3 {
    } else if k == 4 {
    } else if k == 5 {
    } else if k == 6 {
    } else {
      assert k == 7;
    }
  }

  lemma NothingLeft(c: bv64, b: bv8)
    ensures Plus(c, Rests(b)[8]) == c && Rests(b)[0] == b as bv64
  {
  }

  function Enter(c: bv64, bit: bv64): bv64 {
    ShiftOut(Plus(c, bit))
  }

  /** One more bit of the byte enters. */
  lemma NextBit(c: bv64, b: bv8, k: nat)
    requires k < 8
    ensures ShiftOut(Plus(c, Rests(b)[k])) == Plus(Enter(c, BitsOf(b)[k]), Rests(b)[k + 1])
  {
    hide Plus, ShiftOut, Rests, BitsOf;
    OneBitIn(c, Rests(b)[k]);
    LowestOfRest(b, k);
    RestOfRest(b, k);
  }

  function Shifts(c: bv64, n: nat): bv64
    decreases n
  {
    if n == 0 then c else Shifts(ShiftOut(c), n - 1)
  }

  lemma EightAreShifts(c: bv64)
    ensures EightShifts(c) == Shifts(c, 8)
  {
    hide ShiftOut;
    var c4 := ShiftOut(ShiftOut(ShiftOut(ShiftOut(c))));
    assert Shifts(c, 8) == Shifts(ShiftOut(ShiftOut(c)), 6);
    assert Shifts(c, 8) == Shifts(c4, 4);
    assert Shifts(c4, 4) == Shifts(ShiftOut(ShiftOut(c4)), 2);
  }

  lemma {:induction false} Peel(c: bv64, b: bv8, k: nat)
    requires k <= 8
    ensures Shifts(Plus(c, Rests(b)[k]), 8 - k) == Plus(Remainder(c, BitsOf(b)[k..]), Rests(b)[8])
    decreases 8 - k
  {
    hide Plus, ShiftOut, Rests, BitsOf, Enter;
    if k < 8 {
      NextBit(c, b, k);
      Peel(Enter(c, BitsOf(b)[k]), b, k + 1);
      assert BitsOf(b)[k..][1..] == BitsOf(b)[k + 1..];
    }
  }

  /** Adding a byte at once is adding its bits one by one. */
  lemma ByteIsBits(crc: bv64, b: bv8)
    ensures EightShifts(Plus(crc, b as bv64)) == Remainder(crc, BitsOf(b))
  {
    hide Plus, Rests, BitsOf, Enter, EightShifts, Shifts;
    EightAreShifts(Plus(crc, b as bv64));
    NothingLeft(crc, b);
    Peel(crc, b, 0);
    assert BitsOf(b)[0..] == BitsOf(b);
    NothingLeft(Remainder(crc, BitsOf(b)), b);
  }

  lemma {:induction false} RemainderConcat(c: bv64, a: seq<bv64>, b: seq<bv64>)
    ensures Remainder(c, a + b) == Remainder(Remainder(c, a), b)
    decreases |a|
  {
    hide Enter;
    if a == [] {
      assert a + b == b;
    } else {
      assert (a + b)[0] == a[0] && (a + b)[1..] == a[1..] + b;
      RemainderConcat(Enter(c, a[0]), a[1..], b);
    }
  }

  /** The checksum of a string of any length is the remainder of its bits. */
  lemma {:induction false} CrcIsRemainder(crc: bv64, s: seq<bv8>)
    ensures Crc(crc, s) == Remainder(crc, Message(s))
    decreases |s|
  {
    hide Feed, BitsOf, EightShifts, Plus, Enter;
    if s != [] {
      StepIsDivision(crc, s[0]);
      ByteIsBits(crc, s[0]);
      RemainderConcat(crc, BitsOf(s[0]), Message(s[1..]));
      CrcIsRemainder(Feed(crc, s[0]), s[1..]);
    }
  }

  /** crc64: the loop over the table is the division. */
  method Crc64(crc: bv64, s: seq<bv8>) returns (r: bv64)
    ensures r == Crc(crc, s) == Remainder(crc, Message(s))
  {
    hide Feed, Remainder;
    r := crc;
    var j := 0;
    assert s[0..] == s;
    while j < |s|
      invariant 0 <= j <= |s| && Crc(r, s[j..]) == Crc(crc, s)
    {
      assert s[j..][0] == s[j] && s[j..][1..] == s[j + 1..];
      r := Feed(r, s[j]);
      j := j + 1;
    }
    CrcIsRemainder(crc, s);
  }

  /** The check value that the source gives: the checksum of the digits 1 to 9. */
  const DIGITS: seq<bv8> := [0x31, 0x32, 0x33, 0x34, 0x35, 0x36, 0x37, 0x38, 0x39]

  lemma StepValue(crc: bv64, byte: bv8, next: bv64)
    requires EightShifts(Plus(crc, byte as bv64)) == next
    ensures Feed(crc, byte) == next
  {
    hide Feed, EightShifts, Plus;
    StepIsDivision(crc, byte);
  }

  lemma Digit1()
    ensures Feed(0x0000000000000000, 0x31) == 0xfdc17184a9f739fa
  {
    StepValue(0x0000000000000000, 0x31, 0xfdc17184a9f739fa);
  }

  lemma Digit2()
    ensures Feed(0xfdc17184a9f739fa, 0x32) == 0xe10364513a98ed96
  {
    StepValue(0xfdc17184a9f739fa, 0x32, 0xe10364513a98ed96);
  }

  lemma Digit3()
    ensures Feed(0xe10364513a98ed96, 0x33) == 0xd5bcfb814479b1ac
  {
    StepValue(0xe10364513a98ed96, 0x33, 0xd5bcfb814479b1ac);
  }

  lemma Digit4()
    ensures Feed(0xd5bcfb814479b1ac, 0x34) == 0x43593c5dcda521f0
  {
    StepValue(0xd5bcfb814479b1ac, 0x34, 0x43593c5dcda521f0);
  }

  lemma Digit5()
    ensures Feed(0x43593c5dcda521f0, 0x35) == 0xf0758513239c7e0d
  {
    StepValue(0x43593c5dcda521f0, 0x35, 0xf0758513239c7e0d);
  }

  lemma Digit6()
    ensures Feed(0xf0758513239c7e0d, 0x36) == 0xa3a90925b2ab4903
  {
    StepValue(0xf0758513239c7e0d, 0x36, 0xa3a90925b2ab4903);
  }

  lemma Digit7()
    ensures Feed(0xa3a90925b2ab4903, 0x37) == 0x47824d362431ad45
  {
    StepValue(0xa3a90925b2ab4903, 0x37, 0x47824d362431ad45);
  }

  lemma Digit8()
    ensures Feed(0x47824d362431ad45, 0x38) == 0x49ec20b315e86dc2
  {
    StepValue(0x47824d362431ad45, 0x38, 0x49ec20b315e86dc2);
  }

  lemma Digit9()
    ensures Feed(0x49ec20b315e86dc2, 0x39) == 0xe9c6d914c4b8d9ca
  {
    StepValue(0x49ec20b315e86dc2, 0x39, 0xe9c6d914c4b8d9ca);
  }

  lemma CheckValue()
    ensures Crc(0, DIGITS) == 0xe9c6d914c4b8d9ca
  {
    Digit1();
    Digit2();
    Digit3();
    Digit4();
    Digit5();
    Digit6();
    Digit7();
    Digit8();
    Digit9();
    hide Feed;
    var s := DIGITS;
    assert s[1..][1..] == s[2..] && s[2..][1..] == s[3..] && s[3..][1..] == s[4..] && s[4..][1..] == s[5..];
    assert s[5..][1..] == s[6..] && s[6..][1..] == s[7..] && s[7..][1..] == s[8..] && s[8..][1..] == [];
    assert Crc(0, s) == Crc(0xfdc17184a9f739fa, s[1..]);
    assert Crc(0, s) == Crc(0xe10364513a98ed96, s[2..]);
    assert Crc(0, s) == Crc(0xd5bcfb814479b1ac, s[3..]);
    assert Crc(0, s) == Crc(0x43593c5dcda521f0, s[4..]);
    assert Crc(0, s) == Crc(0xf0758513239c7e0d, s[5..]);
    assert Crc(0, s) == Crc(0xa3a90925b2ab4903, s[6..]);
    assert Crc(0, s) == Crc(0x47824d362431ad45, s[7..]);
    assert Crc(0, s) == Crc(0x49ec20b315e86dc2, s[8..]);
  }

  // ----- no step forgets anything -----

  /** The top byte of an entry tells which it is. */
  lemma EntriesDiffer(x: bv8, y: bv8)
    requires Entry(x) >> 56 == Entry(y) >> 56
    ensures x == y
  {
  }

  lemma TopByteOfStep(e: bv64, crc: bv64)
    ensures (e ^ (crc >> 8)) >> 56 == e >> 56
  {
  }

  lemma StateFromParts(c: bv64, d: bv64, e: bv64, b: bv8)
    requires e ^ (c >> 8) == e ^ (d >> 8) && Low(c) ^ b == Low(d) ^ b
    ensures c == d
  {
  }

  /** The entry used can be read off the new state. */
  lemma StepShowsEntry(c: bv64, d: bv64, x: bv8, y: bv8)
    requires Feed(c, x) == Feed(d, y)
    ensures Low(c) ^ x == Low(d) ^ y
  {
    hide Table, Entry;
    TableIsPolynomial(Low(c) ^ x);
    TableIsPolynomial(Low(d) ^ y);
    TopByteOfStep(Entry(Low(c) ^ x), c);
    TopByteOfStep(Entry(Low(d) ^ y), d);
    EntriesDiffer(Low(c) ^ x, Low(d) ^ y);
  }

  /** Different states stay different on the same byte. */
  lemma StepKeepsStates(c: bv64, d: bv64, b: bv8)
    requires Feed(c, b) == Feed(d, b)
    ensures c == d
  {
    hide Table, Low;
    StepShowsEntry(c, d, b, b);
    StateFromParts(c, d, Table(Low(c) ^ b), b);
  }

  /** Different bytes lead one state to different states. */
  lemma StepKeepsBytes(c: bv64, x: bv8, y: bv8)
    requires Feed(c, x) == Feed(c, y)
    ensures x == y
  {
    hide Feed, Low;
    StepShowsEntry(c, c, x, y);
    XorCancels(Low(c), x, y);
  }

  lemma XorCancels(a: bv8, x: bv8, y: bv8)
    requires a ^ x == a ^ y
    ensures x == y
  {
  }

  lemma {:induction false} SameRestKeepsStates(c: bv64, d: bv64, s: seq<bv8>)
    requires Crc(c, s) == Crc(d, s)
    ensures c == d
    decreases |s|
  {
    hide Feed;
    if s != [] {
      SameRestKeepsStates(Feed(c, s[0]), Feed(d, s[0]), s[1..]);
      StepKeepsStates(c, d, s[0]);
    }
  }

  /** Changing one byte of a string of any length changes its CRC. */
  lemma OneByteChangesCrc(crc: bv64, s: seq<bv8>, i: nat, b: bv8)
    requires i < |s| && b != s[i]
    ensures Crc(crc, s[i := b]) != Crc(crc, s)
  {
    hide Feed;
    var head, rest := s[..i], s[i + 1..];
    assert s == head + ([s[i]] + rest) && s[i := b] == head + ([b] + rest);
    CrcConcat(crc, head, [s[i]] + rest);
    CrcConcat(crc, head, [b] + rest);
    var c := Crc(crc, head);
    assert ([s[i]] + rest)[1..] == rest && ([b] + rest)[1..] == rest;
    if Crc(crc, s[i := b]) == Crc(crc, s) {
      SameRestKeepsStates(Feed(c, b), Feed(c, s[i]), rest);
      StepKeepsBytes(c, b, s[i]);
    }
  }

  // ----- the payload -----

  /** Byte k of a number, counted from the lowest. */
  function ByteAt(x: bv64, k: nat): bv8
    requires k < 8
  {
    if k == 0 then Low(x)
    else if k == 1 then Low(x >> 8)
    else if k == 2 then Low(x >> 16)
    else if k == 3 then Low(x >> 24)
    else if k == 4 then Low(x >> 32)
    else if k == 5 then Low(x >> 40)
    else if k == 6 then Low(x >> 48)
    else Low(x >> 56)
  }

  /** A 64-bit number as eight bytes, the lowest first. */
  function LittleEndian(x: bv64): (s: seq<bv8>)
    ensures |s| == 8
  {
    seq(8, k requires 0 <= k < 8 => ByteAt(x, k))
  }

  function Join(a: bv8, b: bv8, c: bv8, d: bv8, e: bv8, f: bv8, g: bv8, h: bv8): bv64 {
    (a as bv64) | ((b as bv64) << 8) | ((c as bv64) << 16) | ((d as bv64) << 24)
    | ((e as bv64) << 32) | ((f as bv64) << 40) | ((g as bv64) << 48) | ((h as bv64) << 56)
  }

  /** Eight bytes read as a number, the lowest first. */
  function Read64(s: seq<bv8>): bv64
    requires |s| == 8
  {
    Join(s[0], s[1], s[2], s[3], s[4], s[5], s[6], s[7])
  }

  function Read16(s: seq<bv8>): bv16
    requires |s| == 2
  {
    (s[0] as bv16) | ((s[1] as bv16) << 8)
  }

  lemma PartsOfNumber(x: bv64)
    ensures Join(ByteAt(x, 0), ByteAt(x, 1), ByteAt(x, 2), ByteAt(x, 3), ByteAt(x, 4), ByteAt(x, 5), ByteAt(x, 6), ByteAt(x, 7)) == x
  {
  }

  lemma NumberReadsBack(x: bv64)
    ensures Read64(LittleEndian(x)) == x
  {
    hide ByteAt, Join;
    PartsOfNumber(x);
  }

  lemma PartsOfJoin(a: bv8, b: bv8, c: bv8, d: bv8, e: bv8, f: bv8, g: bv8, h: bv8)
    ensures var x := Join(a, b, c, d, e, f, g, h);
      && ByteAt(x, 0) == a && ByteAt(x, 1) == b && ByteAt(x, 2) == c && ByteAt(x, 3) == d
      && ByteAt(x, 4) == e && ByteAt(x, 5) == f && ByteAt(x, 6) == g && ByteAt(x, 7) == h
  {
  }

  lemma BytesWriteBack(s: seq<bv8>)
    requires |s| == 8
    ensures LittleEndian(Read64(s)) == s
  {
    hide ByteAt, Join;
    PartsOfJoin(s[0], s[1], s[2], s[3], s[4], s[5], s[6], s[7]);
    assert LittleEndian(Read64(s)) == s;
  }

  lemma LittleEndianDecides(x: bv64, y: bv64)
    requires LittleEndian(x) == LittleEndian(y)
    ensures x == y
  {
    hide LittleEndian, Read64;
    NumberReadsBack(x);
    NumberReadsBack(y);
  }

  const VERSION_BYTES: seq<bv8> := [(RDB_VERSION & 0xFF) as bv8, ((RDB_VERSION >> 8) & 0xFF) as bv8]

  function Payload(body: seq<bv8>): seq<bv8> {
    var covered := body + VERSION_BYTES;
    covered + LittleEndian(Crc(0, covered))
  }

  /** createDumpPayload for a value serialised as `body`: the value, the version and the remainder of all that, both
      numbers with their lowest byte first. */
  method CreateDumpPayload(body: seq<bv8>) returns (p: seq<bv8>)
    ensures p == Payload(body)
    ensures |p| == |body| + 10 && p[..|body|] == body && Read16(p[|body|..|body| + 2]) == RDB_VERSION
    ensures Read64(p[|body| + 2..]) == Remainder(0, Message(p[..|body| + 2]))
  {
    hide Remainder, Message, Crc, Read64, LittleEndian;
    p := body + [(RDB_VERSION & 0xFF) as bv8, ((RDB_VERSION >> 8) & 0xFF) as bv8];
    ghost var covered := p;
    VersionReadsBack();
    var crc := Crc64(0, p);
    NumberReadsBack(crc);
    p := p + LittleEndian(crc);
    assert p[..|body| + 2] == covered && p[|body| + 2..] == LittleEndian(crc);
    assert p[|body|..|body| + 2] == VERSION_BYTES;
  }

  predicate Accepted(p: seq<bv8>) {
    && |p| >= 10
    && ((p[|p| - 9] as bv16) << 8) | (p[|p| - 10] as bv16) <= RDB_VERSION
    && LittleEndian(Crc(0, p[..|p| - 8])) == p[|p| - 8..]
  }

  /** verifyDumpPayload. */
  method VerifyDumpPayload(p: seq<bv8>) returns (ok: bool)
    ensures ok == Accepted(p)
    ensures ok <==> && |p| >= 10 && Read16(p[|p| - 10..|p| - 8]) <= RDB_VERSION
                    && Read64(p[|p| - 8..]) == Remainder(0, Message(p[..|p| - 8]))
  {
    hide Remainder, Message, Crc, Read64, LittleEndian;
    if |p| < 10 {
      return false;
    }
    var footer := p[|p| - 10..];
    var rdbver := ((footer[1] as bv16) << 8) | (footer[0] as bv16);
    SameVersion(footer[0], footer[1], p[|p| - 10..|p| - 8]);
    if rdbver > RDB_VERSION {
      return false;
    }
    var crc := Crc64(0, p[..|p| - 8]);
    assert footer[2..] == p[|p| - 8..];
    NumberReadsBack(crc);
    BytesWriteBack(footer[2..]);
    ok := LittleEndian(crc) == footer[2..];
  }

  lemma SameVersion(a: bv8, b: bv8, s: seq<bv8>)
    requires s == [a, b]
    ensures Read16(s) == ((b as bv16) << 8) | (a as bv16)
  {
  }

  lemma VersionReadsBack()
    ensures ((VERSION_BYTES[1] as bv16) << 8) | (VERSION_BYTES[0] as bv16) == RDB_VERSION == Read16(VERSION_BYTES)
  {
  }

  lemma PayloadIsAccepted(body: seq<bv8>)
    ensures Accepted(Payload(body))
  {
    hide Crc, LittleEndian;
    var covered, p := body + VERSION_BYTES, Payload(body);
    assert p[..|p| - 8] == covered && p[|p| - 8..] == LittleEndian(Crc(0, covered));
    assert p[|p| - 9] == VERSION_BYTES[1] && p[|p| - 10] == VERSION_BYTES[0];
    VersionReadsBack();
  }

  /** Any one changed byte, of the value, of the version or of the checksum itself, is noticed. */
  lemma OneChangedByteIsRefused(body: seq<bv8>, i: nat, b: bv8)
    requires i < |Payload(body)| && b != Payload(body)[i]
    ensures !Accepted(Payload(body)[i := b])
  {
    hide Crc, LittleEndian;
    var covered, p := body + VERSION_BYTES, Payload(body);
    var q := p[i := b];
    assert p[..|p| - 8] == covered && p[|p| - 8..] == LittleEndian(Crc(0, covered));
    if i < |covered| {
      assert q[..|q| - 8] == covered[i := b] && q[|q| - 8..] == p[|p| - 8..];
      OneByteChangesCrc(0, covered, i, b);
      if LittleEndian(Crc(0, covered[i := b])) == LittleEndian(Crc(0, covered)) {
        LittleEndianDecides(Crc(0, covered[i := b]), Crc(0, covered));
      }
    } else {
      assert q[..|q| - 8] == covered;
      assert q[|q| - 8..][i - |covered|] == b && p[|p| - 8..][i - |covered|] == p[i];
    }
  }
}
