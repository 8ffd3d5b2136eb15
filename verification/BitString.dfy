/** Byte strings as bit strings, the first bit being the highest of the first byte, and the search for the first bit
    of a kind, a machine word at a time. */
module BitString {
  type Byte = b: nat | b < 256

  function Pow2(n: nat): (p: nat)
    ensures p > 0
  {
    if n == 0 then 1 else 2 * Pow2(n - 1)
  }

  lemma {:induction false} Pow2Sum(a: nat, b: nat)
    ensures Pow2(a + b) == Pow2(a) * Pow2(b)
  {
    if a > 0 {
      Pow2Sum(a - 1, b);
      Doubled(Pow2(a - 1), Pow2(b));
    }
  }

  lemma Doubled(a: nat, b: nat)
    ensures 2 * (a * b) == (2 * a) * b
  {
  }

  lemma {:induction false} Pow2Grows(a: nat, b: nat)
    requires a <= b
    ensures Pow2(a) <= Pow2(b)
  {
    if a < b {
      Pow2Grows(a, b - 1);
    }
  }

  /** Bit k of a number, counted from the lowest. */
  function NumberBit(n: nat, k: nat): (b: nat)
    ensures b <= 1
  {
    if k == 0 then n % 2 else NumberBit(n / 2, k - 1)
  }

  /** Bit i of a string, counted from its start. */
  function BitAt(s: seq<Byte>, i: nat): (b: nat)
    requires i < 8 * |s|
    ensures b <= 1
  {
    NumberBit(s[i / 8], 7 - i % 8)
  }

  /** Bits past the end read as zero. */
  function PaddedBit(s: seq<Byte>, i: nat): (b: nat)
    ensures b <= 1
  {
    if i < 8 * |s| then BitAt(s, i) else 0
  }

  // ----- bits of numbers in two parts -----

  lemma HalfOfSum(high: nat, low: nat, m: nat)
    requires m > 0
    ensures (high * Pow2(m) + low) / 2 == high * Pow2(m - 1) + low / 2
    ensures (high * Pow2(m) + low) % 2 == low % 2
  {
    var p := high * Pow2(m - 1);
    assert high * Pow2(m) == 2 * p by {
      Twice(high, Pow2(m - 1));
    }
  }

  lemma Twice(a: nat, b: nat)
    ensures a * (2 * b) == 2 * (a * b)
  {
  }

  /** Below m the bits are those of the low part. */
  lemma {:induction false} LowBits(high: nat, low: nat, m: nat, k: nat)
    requires k < m
    ensures NumberBit(high * Pow2(m) + low, k) == NumberBit(low, k)
    decreases k
  {
    HalfOfSum(high, low, m);
    if k > 0 {
      LowBits(high, low / 2, m - 1, k - 1);
    }
  }

  /** From m on they are those of the high part. */
  lemma {:induction false} HighBits(high: nat, low: nat, m: nat, k: nat)
    requires low < Pow2(m) && k >= m
    ensures NumberBit(high * Pow2(m) + low, k) == NumberBit(high, k - m)
    decreases m
  {
    if m == 0 {
      assert high * Pow2(0) + low == high;
    } else {
      HalfOfSum(high, low, m);
      HighBits(high, low / 2, m - 1, k - 1);
    }
  }

  lemma {:induction false} ZeroBits(k: nat)
    ensures NumberBit(0, k) == 0
  {
    if k > 0 {
      ZeroBits(k - 1);
    }
  }

  lemma {:induction false} OneBits(m: nat, k: nat)
    requires k < m
    ensures NumberBit(Pow2(m) - 1, k) == 1
    decreases k
  {
    assert (Pow2(m) - 1) / 2 == Pow2(m - 1) - 1;
    if k > 0 {
      OneBits(m - 1, k - 1);
    }
  }

  /** A number below 2^m whose bits are all of one kind is 0 or 2^m - 1. */
  lemma {:induction false} UniformBits(n: nat, m: nat, bit: nat)
    requires n < Pow2(m) && bit <= 1 && forall k :: 0 <= k < m ==> NumberBit(n, k) != bit
    ensures n == if bit == 1 then 0 else Pow2(m) - 1
    decreases m
  {
    if m > 0 {
      assert NumberBit(n, 0) != bit;
      forall k | 0 <= k < m - 1
        ensures NumberBit(n / 2, k) != bit
      {
        assert NumberBit(n, k + 1) == NumberBit(n / 2, k);
      }
      UniformBits(n / 2, m - 1, bit);
    }
  }

  // ----- big-endian values -----

  /** The bytes as one number, the first the most significant. */
  function Value(s: seq<Byte>): nat {
    if s == [] then 0 else Value(s[..|s| - 1]) * 256 + s[|s| - 1]
  }

  lemma {:induction false} ValueBit(s: seq<Byte>, i: nat)
    requires i < 8 * |s|
    ensures NumberBit(Value(s), 8 * |s| - 1 - i) == BitAt(s, i)
  {
    hide NumberBit;
    var t, b := s[..|s| - 1], s[|s| - 1];
    assert Pow2(8) == 256;
    var k := 8 * |s| - 1 - i;
    if i >= 8 * |t| {
      LowBits(Value(t), b, 8, k);
      assert i / 8 == |t| && k == 7 - i % 8;
    } else {
      HighBits(Value(t), b, 8, k);
      ValueBit(t, i);
      assert t[i / 8] == s[i / 8];
    }
  }

  // ----- the search -----

  /** Bit i of the string is the first of kind `bit`; a 0 is always found, at the latest right after the end. */
  ghost predicate IsFirst(s: seq<Byte>, bit: nat, i: nat) {
    && PaddedBit(s, i) == bit && i <= 8 * |s|
    && forall j :: 0 <= j < i ==> PaddedBit(s, j) != bit
  }

  ghost predicate Without(s: seq<Byte>, bit: nat, n: nat) {
    forall j :: 0 <= j < n ==> PaddedBit(s, j) != bit
  }

  ghost predicate HasBit(s: seq<Byte>, bit: nat, from: nat, to: nat) {
    exists j :: from <= j < to && PaddedBit(s, j) == bit
  }

  ghost predicate AllSkip(s: seq<Byte>, c: nat, bit: nat)
    requires c + 8 <= |s|
  {
    var b := SkipByte(bit);
    && s[c] == b && s[c + 1] == b && s[c + 2] == b && s[c + 3] == b
    && s[c + 4] == b && s[c + 5] == b && s[c + 6] == b && s[c + 7] == b
  }

  function SkipByte(bit: nat): Byte {
    if bit == 0 then 255 else 0
  }

  lemma SkipBits(bit: nat, k: nat)
    requires bit <= 1 && k <= 7
    ensures NumberBit(SkipByte(bit), k) != bit
  {
    assert Pow2(4) == 16 && Pow2(8) == 256;
    if bit == 0 {
      OneBits(8, k);
    } else {
      ZeroBits(k);
    }
  }

  lemma SkipOne(s: seq<Byte>, bit: nat, c: nat)
    requires bit <= 1 && c < |s| && s[c] == SkipByte(bit) && Without(s, bit, 8 * c)
    ensures Without(s, bit, 8 * (c + 1))
  {
    forall j | 0 <= j < 8 * (c + 1)
      ensures PaddedBit(s, j) != bit
    {
      if j >= 8 * c {
        assert j / 8 == c;
        SkipBits(bit, 7 - j % 8);
      }
    }
  }

  /** The eight bytes of a machine word in memory order, read little-endian. */
  function MachineWord(s: seq<Byte>, c: nat): nat
    requires c + 8 <= |s|
  {
    var w7: nat := s[c + 7];
    var w6: nat := s[c + 6] + 0x100 * w7;
    var w4: nat := s[c + 4] + 0x100 * (s[c + 5] + 0x100 * w6);
    var w2: nat := s[c + 2] + 0x100 * (s[c + 3] + 0x100 * w4);
    s[c] + 0x100 * (s[c + 1] + 0x100 * w2)
  }

  const ULONG_MAX := 0xFFFF_FFFF_FFFF_FFFF

  /** A word is all zeros or all ones exactly when its bytes are. */
  lemma WordIsSkip(s: seq<Byte>, c: nat, bit: nat)
    requires c + 8 <= |s| && bit <= 1
    ensures MachineWord(s, c) == (if bit == 1 then 0 else ULONG_MAX) <==> AllSkip(s, c, bit)
  {
    var w7: nat := s[c + 7];
    var w6 := s[c + 6] + 0x100 * w7;
    var w5 := s[c + 5] + 0x100 * w6;
    var w4 := s[c + 4] + 0x100 * w5;
    var w3 := s[c + 3] + 0x100 * w4;
    var w2 := s[c + 2] + 0x100 * w3;
    var w1 := s[c + 1] + 0x100 * w2;
    assert MachineWord(s, c) == s[c] + 0x100 * w1;
    assert w6 < 0x1_0000 && w5 < 0x100_0000 && w4 < 0x1_0000_0000 && w3 < 0x100_0000_0000;
    assert w2 < 0x1_0000_0000_0000 && w1 < 0x100_0000_0000_0000;
  }

  lemma SkipEight(s: seq<Byte>, bit: nat, c: nat)
    requires bit <= 1 && c + 8 <= |s| && Without(s, bit, 8 * c)
    requires AllSkip(s, c, bit)
    ensures Without(s, bit, 8 * (c + 8))
  {
    hide PaddedBit, SkipByte;
    SkipOne(s, bit, c);
    SkipOne(s, bit, c + 1);
    SkipOne(s, bit, c + 2);
    SkipOne(s, bit, c + 3);
    SkipOne(s, bit, c + 4);
    SkipOne(s, bit, c + 5);
    SkipOne(s, bit, c + 6);
    SkipOne(s, bit, c + 7);
  }

  /** Eight bytes from `c`, filled up with zeros. */
  function Loaded(s: seq<Byte>, c: nat): (t: seq<Byte>)
    requires c <= |s|
    ensures |t| == 8
  {
    seq(8, j => if 0 <= j && c + j < |s| then s[c + j] else 0)
  }

  lemma LoadedBit(s: seq<Byte>, c: nat, i: nat)
    requires c <= |s| && i < 64
    ensures BitAt(Loaded(s, c), i) == PaddedBit(s, 8 * c + i)
  {
    assert (8 * c + i) / 8 == c + i / 8 && (8 * c + i) % 8 == i % 8;
    if c + i / 8 >= |s| {
      ZeroBits(7 - i % 8);
    }
  }

  /** A byte that is not to be skipped has a bit of the kind sought. */
  lemma ByteHasBit(b: Byte, bit: nat)
    requires bit <= 1 && b != SkipByte(bit)
    ensures exists k :: 0 <= k <= 7 && NumberBit(b, k) == bit
  {
    assert Pow2(4) == 16 && Pow2(8) == 256;
    if forall k :: 0 <= k < 8 ==> NumberBit(b, k) != bit {
      UniformBits(b, 8, bit);
    }
  }

  /** So has a word that was not skipped. */
  lemma LoadedHasBit(s: seq<Byte>, c: nat, bit: nat, k: nat)
    requires bit <= 1 && c + k < |s| && k < 8 && s[c + k] != SkipByte(bit)
    ensures HasBit(s, bit, 8 * c, 8 * c + 64)
  {
    ByteHasBit(s[c + k], bit);
    var j :| 0 <= j <= 7 && NumberBit(s[c + k], j) == bit;
    var i := 8 * k + 7 - j;
    assert (8 * c + i) / 8 == c + k && (8 * c + i) % 8 == 7 - j;
    assert PaddedBit(s, 8 * c + i) == bit;
  }

  /** redisBitpos for a string that starts at any address. */
  method RedisBitpos(s: seq<Byte>, address: nat, bit: nat) returns (pos: int)
    requires bit <= 1
    ensures pos >= 0 ==> IsFirst(s, bit, pos)
    ensures pos < 0 ==> pos == -1 && bit == 1 && Without(s, 1, 8 * |s|)
    ensures pos == 8 * |s| ==> bit == 0
  {
    hide NumberBit, PaddedBit, MachineWord, Value;
    var c, found := 0, false;
    while (address + c) % 8 != 0 && c < |s|
      invariant 0 <= c <= |s| && Without(s, bit, 8 * c) && !found
      decreases |s| - c
    {
      if s[c] != SkipByte(bit) {
        found := true;
        break;
      }
      SkipOne(s, bit, c);
      c := c + 1;
    }
    if !found {
      while |s| - c >= 8
        invariant 0 <= c <= |s| && Without(s, bit, 8 * c)
      {
        WordIsSkip(s, c, bit);
        if MachineWord(s, c) != (if bit == 1 then 0 else ULONG_MAX) {
          break;
        }
        SkipEight(s, bit, c);
        c := c + 8;
      }
    }
    assert |s| - c >= 8 ==> HasBit(s, bit, 8 * c, 8 * c + 64) by {
      if found && |s| - c >= 8 {
        LoadedHasBit(s, c, bit, 0);
      } else if |s| - c >= 8 {
        var k :| c <= k < c + 8 && s[k] != SkipByte(bit);
        LoadedHasBit(s, c, bit, k - c);
      }
    }
    var word := LoadWord(s, c);
    pos := ScanWord(s, c, bit, word);
  }

  /** The loop that loads up to eight bytes into a word, the first as the most significant. */
  method LoadWord(s: seq<Byte>, c: nat) returns (word: nat)
    requires c <= |s|
    ensures word == Value(Loaded(s, c))
  {
    word := 0;
    var j := 0;
    ghost var t := Loaded(s, c);
    while j < 8
      invariant 0 <= j <= 8 && word == Value(t[..j])
    {
      assert t[..j + 1][..j] == t[..j];
      word := word * 256;
      if c + j < |s| {
        word := word + s[c + j];
      }
      j := j + 1;
    }
    assert t[..8] == t;
  }

  lemma ValueOfZeros(t: seq<Byte>)
    requires Value(t) == 0
    ensures forall i :: 0 <= i < 8 * |t| ==> BitAt(t, i) == 0
  {
    forall i | 0 <= i < 8 * |t|
      ensures BitAt(t, i) == 0
    {
      ValueBit(t, i);
      ZeroBits(8 * |t| - 1 - i);
    }
  }

  lemma {:induction false} ValueIsBounded(t: seq<Byte>)
    ensures Value(t) < Pow2(8 * |t|)
  {
    if t == [] {
    } else {
      var u := t[..|t| - 1];
      ValueIsBounded(u);
      Pow2Sum(8, 8 * |u|);
      assert Pow2(4) == 16 && Pow2(8) == 256;
    }
  }

  /** The last word holds a bit of the kind sought, unless a 1 is sought in a word of zeros. */
  lemma WordHasBit(s: seq<Byte>, c: nat, bit: nat, word: nat)
    requires bit <= 1 && c <= |s| && word == Value(Loaded(s, c)) && (bit == 1 ==> word != 0)
    requires |s| - c >= 8 ==> HasBit(s, bit, 8 * c, 8 * c + 64)
    ensures HasBit(s, bit, 8 * c, 8 * c + 64)
  {
    hide NumberBit, Value;
    if |s| - c < 8 {
      if bit == 0 {
        assert PaddedBit(s, 8 * c + (8 * |s| - 8 * c)) == 0;
      } else if !HasBit(s, 1, 8 * c, 8 * c + 64) {
        var t := Loaded(s, c);
        forall k | 0 <= k < 64
          ensures NumberBit(word, k) != 1
        {
          assert PaddedBit(s, 8 * c + (63 - k)) != 1;
          LoadedBit(s, c, 63 - k);
          ValueBit(t, 63 - k);
        }
        ValueIsBounded(t);
        UniformBits(word, 64, 1);
      }
    }
  }

  /** The bit by bit scan of the last word. It always ends at a hit. */
  method ScanWord(s: seq<Byte>, c: nat, bit: nat, word: nat) returns (pos: int)
    requires bit <= 1 && c <= |s| && word == Value(Loaded(s, c)) && Without(s, bit, 8 * c)
    requires |s| - c >= 8 ==> HasBit(s, bit, 8 * c, 8 * c + 64)
    ensures pos >= 0 ==> IsFirst(s, bit, pos)
    ensures pos < 0 ==> pos == -1 && bit == 1 && Without(s, 1, 8 * |s|)
    ensures pos == 8 * |s| ==> bit == 0
  {
    hide NumberBit, Value;
    ghost var t := Loaded(s, c);
    if bit == 1 && word == 0 {
      ValueOfZeros(t);
      forall j | 8 * c <= j < 8 * c + 64
        ensures PaddedBit(s, j) == 0
      {
        LoadedBit(s, c, j - 8 * c);
      }
      return -1;
    }
    WordHasBit(s, c, bit, word);
    var i := 0;
    while i < 64
      invariant 0 <= i <= 64 && Without(s, bit, 8 * c + i)
    {
      ValueBit(t, i);
      LoadedBit(s, c, i);
      if NumberBit(word, 63 - i) == bit {
        assert PaddedBit(s, 8 * |s|) == 0;
        return 8 * c + i;
      }
      i := i + 1;
    }
    assert false;
  }
}
