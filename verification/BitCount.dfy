/** Counting the set bits of a byte string 28 bytes at a time: seven 32-bit words are folded into byte-wide lanes,
    the lanes are added, and one multiplication gathers the four lanes in the top byte. */
module BitCount {

  /** Bit k of a byte. */
  function Bit(b: bv8, k: bv8): (n: nat)
    requires k < 8
    ensures n <= 1
  {
    if (b >> k) & 1 == 1 then 1 else 0
  }

  function ByteBits(b: bv8): nat {
    Bit(b, 0) + Bit(b, 1) + Bit(b, 2) + Bit(b, 3) + Bit(b, 4) + Bit(b, 5) + Bit(b, 6) + Bit(b, 7)
  }

  /** The number of set bits. */
  function Population(s: seq<bv8>): nat {
    if s == [] then 0 else ByteBits(s[0]) + Population(s[1..])
  }

  // ----- one word -----

  function Pairs(w: bv32): bv32 {
    w - ((w >> 1) & 0x55555555)
  }

  function Nibbles(a: bv32): bv32 {
    (a & 0x33333333) + ((a >> 2) & 0x33333333)
  }

  function Lanes(b: bv32): bv32 {
    (b + (b >> 4)) & 0x0F0F0F0F
  }

  function Folded(w: bv32): bv32 {
    Lanes(Nibbles(Pairs(w)))
  }

  function Lane0(w: bv32): bv32 { w & 0xFF }
  function Lane1(w: bv32): bv32 { (w >> 8) & 0xFF }
  function Lane2(w: bv32): bv32 { (w >> 16) & 0xFF }
  function Lane3(w: bv32): bv32 { (w >> 24) & 0xFF }

  /** Subtracting the upper bit of each pair from the pair adds its two bits. */
  lemma PairsAdd(w: bv32)
    ensures Pairs(w) == (w & 0x55555555) + ((w >> 1) & 0x55555555)
  {
  }

  lemma PairsByLane(w: bv32)
    ensures Lane0(Pairs(w)) == Pairs(Lane0(w)) && Lane1(Pairs(w)) == Pairs(Lane1(w))
    ensures Lane2(Pairs(w)) == Pairs(Lane2(w)) && Lane3(Pairs(w)) == Pairs(Lane3(w))
  {
    PairsAdd(w);
    PairsAdd(Lane0(w));
    PairsAdd(Lane1(w));
    PairsAdd(Lane2(w));
    PairsAdd(Lane3(w));
    hide Pairs;
  }

  lemma NibblesByLane(w: bv32)
    ensures Lane0(Nibbles(w)) == Nibbles(Lane0(w)) && Lane1(Nibbles(w)) == Nibbles(Lane1(w))
    ensures Lane2(Nibbles(w)) == Nibbles(Lane2(w)) && Lane3(Nibbles(w)) == Nibbles(Lane3(w))
    ensures Nibbles(w) & 0x88888888 == 0
  {
  }

  lemma LanesByLane(w: bv32)
    requires w & 0x88888888 == 0
    ensures Lane0(Lanes(w)) == Lanes(Lane0(w)) && Lane1(Lanes(w)) == Lanes(Lane1(w))
    ensures Lane2(Lanes(w)) == Lanes(Lane2(w)) && Lane3(Lanes(w)) == Lanes(Lane3(w))
  {
  }

  /** Folding works on each byte by itself. */
  lemma FoldedByLane(w: bv32)
    ensures Lane0(Folded(w)) == Folded(Lane0(w)) && Lane1(Folded(w)) == Folded(Lane1(w))
    ensures Lane2(Folded(w)) == Folded(Lane2(w)) && Lane3(Folded(w)) == Folded(Lane3(w))
  {
    hide Pairs, Nibbles, Lanes, Lane0, Lane1, Lane2, Lane3;
    PairsByLane(w);
    NibblesByLane(Pairs(w));
    LanesByLane(Nibbles(Pairs(w)));
  }

  // ----- lanes as numbers -----

  function Number(x: bv32): nat {
    x as nat
  }

  lemma SmallSum(p: bv32, q: bv32)
    requires p <= 4 && q <= 4
    ensures Number(p + q) == Number(p) + Number(q)
  {
  }

  lemma FoldedHalves(b: bv8)
    ensures var low, high := Folded((b & 15) as bv32), Folded((b >> 4) as bv32);
            Folded(b as bv32) == low + high && low <= 4 && high <= 4
  {
  }

  lemma BitsOfHalves(b: bv8)
    ensures ByteBits(b) == ByteBits(b & 15) + ByteBits(b >> 4)
  {
  }

  lemma FoldedHalf(b: bv8)
    requires b < 16
    ensures Number(Folded(b as bv32)) == ByteBits(b)
  {
  }

  /** A folded byte is the number of its set bits. */
  lemma FoldedByte(b: bv8)
    ensures Number(Folded(b as bv32)) == ByteBits(b)
  {
    hide Folded, ByteBits, Number;
    FoldedHalves(b);
    BitsOfHalves(b);
    FoldedHalf(b & 15);
    FoldedHalf(b >> 4);
    SmallSum(Folded((b & 15) as bv32), Folded((b >> 4) as bv32));
  }

  lemma TwoLanes(w: bv32)
    requires w & 0xFFFFF0F0 == 0
    ensures Number(w) == Number(w & 0xFF) + 0x100 * Number((w >> 8) & 0xFF)
  {
  }

  lemma TwoHalves(w: bv32)
    requires w & 0xF0F0F0F0 == 0
    ensures Number(w) == Number(w & 0xFFFF) + 0x1_0000 * Number((w >> 16) & 0xFFFF)
  {
  }

  lemma HalvesAreLanes(w: bv32)
    requires w & 0xF0F0F0F0 == 0
    ensures (w & 0xFFFF) & 0xFFFFF0F0 == 0 && ((w >> 16) & 0xFFFF) & 0xFFFFF0F0 == 0
    ensures (w & 0xFFFF) & 0xFF == Lane0(w) && ((w & 0xFFFF) >> 8) & 0xFF == Lane1(w)
    ensures ((w >> 16) & 0xFFFF) & 0xFF == Lane2(w) && (((w >> 16) & 0xFFFF) >> 8) & 0xFF == Lane3(w)
  {
  }

  /** The word as a number in base 256. */
  lemma LanesAreDigits(w: bv32)
    requires w & 0xF0F0F0F0 == 0
    ensures Number(w) == Number(Lane0(w)) + 0x100 * Number(Lane1(w))
                         + 0x1_0000 * Number(Lane2(w)) + 0x100_0000 * Number(Lane3(w))
  {
    hide Number, Lane0, Lane1, Lane2, Lane3;
    TwoHalves(w);
    HalvesAreLanes(w);
    TwoLanes(w & 0xFFFF);
    TwoLanes((w >> 16) & 0xFFFF);
  }

  // ----- words -----

  /** Four bytes loaded as a little-endian word. */
  function Word(b0: bv8, b1: bv8, b2: bv8, b3: bv8): bv32 {
    (b0 as bv32) | ((b1 as bv32) << 8) | ((b2 as bv32) << 16) | ((b3 as bv32) << 24)
  }

  lemma WordLanes(b0: bv8, b1: bv8, b2: bv8, b3: bv8)
    ensures var w := Word(b0, b1, b2, b3);
            Lane0(w) == b0 as bv32 && Lane1(w) == b1 as bv32 && Lane2(w) == b2 as bv32 && Lane3(w) == b3 as bv32
  {
  }

  lemma FoldedIsMasked(w: bv32)
    ensures Folded(w) & 0xF0F0F0F0 == 0
  {
  }

  function Digits(q0: nat, q1: nat, q2: nat, q3: nat): nat {
    q0 + 0x100 * q1 + 0x1_0000 * q2 + 0x100_0000 * q3
  }

  /** A folded word holds the bit counts of its bytes, one per lane. */
  lemma FoldedWord(b0: bv8, b1: bv8, b2: bv8, b3: bv8)
    ensures Number(Folded(Word(b0, b1, b2, b3))) == Digits(ByteBits(b0), ByteBits(b1), ByteBits(b2), ByteBits(b3))
  {
    hide Number, Lane0, Lane1, Lane2, Lane3, Folded, Word, ByteBits;
    var w := Word(b0, b1, b2, b3);
    FoldedByLane(w);
    WordLanes(b0, b1, b2, b3);
    FoldedIsMasked(w);
    LanesAreDigits(Folded(w));
    FoldedByte(b0);
    FoldedByte(b1);
    FoldedByte(b2);
    FoldedByte(b3);
  }

  // ----- seven words -----

  /** The unsigned 32-bit product, shifted down by 24 bits. */
  function Gathered(s: nat): nat {
    s * 0x0101_0101 % 0x1_0000_0000 / 0x100_0000
  }

  /** Lanes of at most 56 make a top byte of at most 224, so nothing is lost or carried into it. */
  lemma GatherSums(q0: nat, q1: nat, q2: nat, q3: nat)
    requires q0 <= 56 && q1 <= 56 && q2 <= 56 && q3 <= 56
    ensures Digits(q0, q1, q2, q3) < 0x1_0000_0000 && Gathered(Digits(q0, q1, q2, q3)) == q0 + q1 + q2 + q3
  {
    var low := q0 + 0x100 * (q0 + q1) + 0x1_0000 * (q0 + q1 + q2);
    var over := (q1 + q2 + q3) + 0x100 * (q2 + q3) + 0x1_0000 * q3;
    var p := low + 0x100_0000 * (q0 + q1 + q2 + q3);
    assert Digits(q0, q1, q2, q3) * 0x0101_0101 == p + 0x1_0000_0000 * over;
    assert low < 0x100_0000 && p < 0x1_0000_0000;
    TopByte(low, q0 + q1 + q2 + q3, over);
  }

  lemma TopByte(low: nat, top: nat, over: nat)
    requires low < 0x100_0000 && top < 0x100
    ensures (low + 0x100_0000 * top + 0x1_0000_0000 * over) % 0x1_0000_0000 / 0x100_0000 == top
  {
    var p := low + 0x100_0000 * top;
    assert (p + 0x1_0000_0000 * over) % 0x1_0000_0000 == p;
    assert p / 0x100_0000 == top;
  }

  function WordAt(s: seq<bv8>, i: nat): bv32
    requires i + 4 <= |s|
  {
    Word(s[i], s[i + 1], s[i + 2], s[i + 3])
  }

  function BitsAt(s: seq<bv8>, i: nat): nat
    requires i + 4 <= |s|
  {
    ByteBits(s[i]) + ByteBits(s[i + 1]) + ByteBits(s[i + 2]) + ByteBits(s[i + 3])
  }

  /** The four lane totals of `n` words from `i` on. */
  ghost function LaneTotal(s: seq<bv8>, i: nat, lane: nat, n: nat): (t: nat)
    requires lane < 4 && i + 4 * n <= |s|
    ensures t <= 8 * n
  {
    if n == 0 then 0 else LaneTotal(s, i, lane, n - 1) + ByteBits(s[i + 4 * (n - 1) + lane])
  }

  lemma {:induction false} PopulationStep(s: seq<bv8>, n: nat)
    requires n < |s|
    ensures Population(s[..n + 1]) == Population(s[..n]) + ByteBits(s[n])
  {
    hide ByteBits;
    if n == 0 {
      assert s[..1][0] == s[0] && s[..1][1..] == [] && s[..0] == [];
    } else {
      PopulationStep(s[1..], n - 1);
      assert s[..n + 1][0] == s[0] && s[..n + 1][1..] == s[1..][..n];
      assert s[..n][0] == s[0] && s[..n][1..] == s[1..][..n - 1];
    }
  }

  lemma PopulationOfWord(s: seq<bv8>, i: nat)
    requires i + 4 <= |s|
    ensures Population(s[..i + 4]) == Population(s[..i]) + BitsAt(s, i)
  {
    hide ByteBits;
    PopulationStep(s, i);
    PopulationStep(s, i + 1);
    PopulationStep(s, i + 2);
    PopulationStep(s, i + 3);
  }

  /** After `n` words: the sum of the folded words, lane by lane, and the bits they hold. */
  lemma {:induction false} BlockSums(s: seq<bv8>, i: nat, n: nat)
    requires i + 4 * n <= |s|
    ensures FoldedSum(s, i, n) == Digits(LaneTotal(s, i, 0, n), LaneTotal(s, i, 1, n), LaneTotal(s, i, 2, n), LaneTotal(s, i, 3, n))
    ensures Population(s[..i + 4 * n]) ==
            Population(s[..i]) + LaneTotal(s, i, 0, n) + LaneTotal(s, i, 1, n) + LaneTotal(s, i, 2, n) + LaneTotal(s, i, 3, n)
  {
    hide ByteBits, Folded, Number, Word, Digits, Population;
    if n == 0 {
      assert Digits(0, 0, 0, 0) == 0 by {
        NoDigits();
      }
    } else {
      var k := i + 4 * (n - 1);
      BlockSums(s, i, n - 1);
      FoldedWord(s[k], s[k + 1], s[k + 2], s[k + 3]);
      DigitsAdd(LaneTotal(s, i, 0, n - 1), LaneTotal(s, i, 1, n - 1), LaneTotal(s, i, 2, n - 1), LaneTotal(s, i, 3, n - 1),
                ByteBits(s[k]), ByteBits(s[k + 1]), ByteBits(s[k + 2]), ByteBits(s[k + 3]));
      PopulationOfWord(s, k);
      assert i + 4 * n == k + 4;
    }
  }

  lemma NoDigits()
    ensures Digits(0, 0, 0, 0) == 0
  {
  }

  lemma DigitsAdd(a0: nat, a1: nat, a2: nat, a3: nat, b0: nat, b1: nat, b2: nat, b3: nat)
    ensures Digits(a0, a1, a2, a3) + Digits(b0, b1, b2, b3) == Digits(a0 + b0, a1 + b1, a2 + b2, a3 + b3)
  {
  }

  function FoldedSum(s: seq<bv8>, i: nat, n: nat): nat
    requires i + 4 * n <= |s|
  {
    if n == 0 then 0 else FoldedSum(s, i, n - 1) + Number(Folded(WordAt(s, i + 4 * (n - 1))))
  }

  /** The 28 bytes from `i` on: their seven folded words, added and gathered, give their set bits. */
  lemma BlockCounts(s: seq<bv8>, i: nat)
    requires i + 28 <= |s|
    ensures FoldedSum(s, i, 7) < 0x1_0000_0000
    ensures Population(s[..i + 28]) == Population(s[..i]) + Gathered(FoldedSum(s, i, 7))
  {
    hide ByteBits, Folded, Number, Word, Digits, Gathered;
    BlockSums(s, i, 7);
    GatherSums(LaneTotal(s, i, 0, 7), LaneTotal(s, i, 1, 7), LaneTotal(s, i, 2, 7), LaneTotal(s, i, 3, 7));
  }

  /** redisPopcount for a string that starts at any address: byte by byte up to a multiple of four, 28 bytes at a
      time, and the remaining bytes. */
  method RedisPopcount(s: seq<bv8>, address: nat) returns (bits: nat)
    ensures bits == Population(s)
  {
    hide ByteBits, Folded, Number, WordAt, Gathered, FoldedSum, Population;
    bits := 0;
    assert Population(s[..0]) == 0 by {
      NoBits(s[..0]);
    }
    var p := 0;
    while (address + p) % 4 != 0 && p < |s|
      invariant 0 <= p <= |s| && bits == Population(s[..p])
      decreases |s| - p
    {
      PopulationStep(s, p);
      bits := bits + ByteBits(s[p]);
      p := p + 1;
    }
    while |s| - p >= 28
      invariant 0 <= p <= |s| && bits == Population(s[..p])
    {
      var aux1, aux2, aux3 := Folded(WordAt(s, p)), Folded(WordAt(s, p + 4)), Folded(WordAt(s, p + 8));
      var aux4, aux5 := Folded(WordAt(s, p + 12)), Folded(WordAt(s, p + 16));
      var aux6, aux7 := Folded(WordAt(s, p + 20)), Folded(WordAt(s, p + 24));
      var sum := Number(aux1) + Number(aux2) + Number(aux3) + Number(aux4) + Number(aux5) + Number(aux6) + Number(aux7);
      BlockIsSum(s, p);
      BlockCounts(s, p);
      bits := bits + Gathered(sum % 0x1_0000_0000);
      p := p + 28;
    }
    while p < |s|
      invariant 0 <= p <= |s| && bits == Population(s[..p])
    {
      PopulationStep(s, p);
      bits := bits + ByteBits(s[p]);
      p := p + 1;
    }
    assert s[..p] == s;
  }

  lemma NoBits(s: seq<bv8>)
    requires s == []
    ensures Population(s) == 0
  {
  }

  lemma {:induction false} BlockIsSum(s: seq<bv8>, p: nat)
    requires p + 28 <= |s|
    ensures FoldedSum(s, p, 7) ==
            Number(Folded(WordAt(s, p))) + Number(Folded(WordAt(s, p + 4))) + Number(Folded(WordAt(s, p + 8)))
            + Number(Folded(WordAt(s, p + 12))) + Number(Folded(WordAt(s, p + 16)))
            + Number(Folded(WordAt(s, p + 20))) + Number(Folded(WordAt(s, p + 24)))
  {
    hide Folded, Number, WordAt;
    assert FoldedSum(s, p, 0) == 0;
    assert FoldedSum(s, p, 3) == FoldedSum(s, p, 2) + Number(Folded(WordAt(s, p + 8)));
    assert FoldedSum(s, p, 5) == FoldedSum(s, p, 4) + Number(Folded(WordAt(s, p + 16)));
  }
}
