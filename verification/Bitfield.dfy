/** BITFIELD: integers of any width at any bit offset of a string, signed or not, with their overflow policies. */
module Bitfield {

  import opened Base
  import opened BitString

  datatype Overflow = Wrap | Sat | Fail

  const TWO_64 := 0x1_0000_0000_0000_0000
  const TWO_63 := 0x8000_0000_0000_0000

  /** Conversions of C: to uint64_t, and to int64_t in two's complement. */
  function ToU64(x: int): nat {
    x % TWO_64
  }

  function ToI64(x: int): int {
    (x + TWO_63) % TWO_64 - TWO_63
  }

  // ----- division by powers of two -----

  lemma AtLeast(k: int, d: nat)
    requires k >= 1
    ensures k * d >= d
  {
  }

  lemma Distribute(a: int, b: int, d: int)
    ensures (a + b) * d == a * d + b * d
  {
  }

  lemma ModUnique(x: int, d: nat, q: int, r: int)
    requires d > 0 && 0 <= r < d && x == q * d + r
    ensures x % d == r && x / d == q
  {
    var q', r' := x / d, x % d;
    assert x == q' * d + r';
    Distribute(q - q', q', d);
    if q > q' {
      AtLeast(q - q', d);
    } else if q < q' {
      Distribute(q' - q, q, d);
      AtLeast(q' - q, d);
    }
  }

  /** Adding multiples of the modulus changes nothing. */
  lemma ModShift(x: int, d: nat, k: int)
    requires d > 0
    ensures (x + k * d) % d == x % d
  {
    Distribute(x / d, k, d);
    ModUnique(x + k * d, d, x / d + k, x % d);
  }

  lemma DivMod(x: int, d: nat)
    requires d > 0
    ensures x == (x / d) * d + x % d && 0 <= x % d < d
  {
  }

  lemma ModOfMultiple(x: int, d: nat, m: nat)
    requires d > 0 && m > 0
    ensures d * m > 0 && x % (d * m) % d == x % d
  {
    AtLeast(m, d);
    var k := x / (d * m);
    DivMod(x, d * m);
    Regroup(k, d, m);
    ModShift(x % (d * m), d, k * m);
  }

  lemma Regroup(k: int, d: int, m: int)
    ensures k * (d * m) == (k * m) * d
  {
  }

  /** Reducing modulo 2^64 first does not matter. */
  lemma ModOfU64(x: int, bits: nat)
    requires bits <= 64
    ensures ToU64(x) % Pow2(bits) == x % Pow2(bits)
  {
    hide Pow2;
    Pow2Sum(bits, 64 - bits);
    Pow2Of64();
    ModOfMultiple(x, Pow2(bits), Pow2(64 - bits));
  }

  lemma Pow2Of4()
    ensures Pow2(4) == 16
  {
  }

  lemma Pow2Next(n: nat)
    ensures Pow2(n + 1) == 2 * Pow2(n)
  {
  }

  lemma Pow2Of64()
    ensures Pow2(64) == TWO_64 && Pow2(63) == TWO_63
  {
    hide Pow2;
    Pow2Of4();
    Pow2Sum(4, 4);
    Pow2Sum(8, 8);
    Pow2Sum(16, 16);
    Pow2Sum(32, 32);
    Pow2Next(63);
  }

  lemma {:induction false} BitsDecide(a: nat, b: nat, m: nat)
    requires a < Pow2(m) && b < Pow2(m) && forall k :: 0 <= k < m ==> NumberBit(a, k) == NumberBit(b, k)
    ensures a == b
    decreases m
  {
    if m > 0 {
      assert NumberBit(a, 0) == NumberBit(b, 0);
      forall k | 0 <= k < m - 1
        ensures NumberBit(a / 2, k) == NumberBit(b / 2, k)
      {
        assert NumberBit(a, k + 1) == NumberBit(b, k + 1);
      }
      BitsDecide(a / 2, b / 2, m - 1);
    }
  }

  lemma BitsOfMod(v: nat, m: nat, k: nat)
    requires k < m
    ensures NumberBit(v % Pow2(m), k) == NumberBit(v, k)
  {
    hide NumberBit, Pow2;
    DivMod(v, Pow2(m));
    LowBits(v / Pow2(m), v % Pow2(m), m, k);
  }

  /** The top bit tells the halves apart. */
  lemma {:induction false} TopBit(v: nat, m: nat)
    requires v < Pow2(m) && m >= 1
    ensures NumberBit(v, m - 1) == 1 <==> v >= Pow2(m - 1)
  {
    if m > 1 {
      TopBit(v / 2, m - 1);
    }
  }

  // ----- setting and getting -----

  /** The number with bit k replaced. */
  function WithBit(n: nat, k: nat, v: nat): nat
    requires v <= 1
  {
    if k == 0 then n / 2 * 2 + v else 2 * WithBit(n / 2, k - 1, v) + n % 2
  }

  lemma {:induction false} WithBitBits(n: nat, k: nat, v: nat, j: nat)
    requires v <= 1
    ensures NumberBit(WithBit(n, k, v), j) == if j == k then v else NumberBit(n, j)
    decreases k
  {
    if k > 0 && j > 0 {
      WithBitBits(n / 2, k - 1, v, j - 1);
    }
  }

  lemma {:induction false} WithBitFits(n: nat, k: nat, v: nat, m: nat)
    requires v <= 1 && n < Pow2(m) && k < m
    ensures WithBit(n, k, v) < Pow2(m)
    decreases k
  {
    if k > 0 {
      WithBitFits(n / 2, k - 1, v, m - 1);
    }
  }

  /** setUnsignedBitfield: the field becomes the low bits of the value, every other bit stays. */
  method SetUnsignedBitfield(p: array<Byte>, offset: nat, bits: nat, value: nat)
    requires offset + bits <= 8 * p.Length
    modifies p
    ensures forall i :: 0 <= i < 8 * p.Length ==>
              BitAt(p[..], i) == if offset <= i < offset + bits then NumberBit(value, bits - 1 - (i - offset))
                                 else old(BitAt(p[..], i))
  {
    hide NumberBit, WithBit;
    var j := 0;
    while j < bits
      invariant 0 <= j <= bits
      invariant forall i :: 0 <= i < 8 * p.Length ==>
                  BitAt(p[..], i) == if offset <= i < offset + j then NumberBit(value, bits - 1 - (i - offset))
                                     else old(BitAt(p[..], i))
    {
      var bitval := NumberBit(value, bits - 1 - j);
      var byte := (offset + j) / 8;
      var bit := 7 - (offset + j) % 8;
      ghost var before := p[..];
      assert Pow2(4) == 16 && Pow2(8) == 256;
      WithBitFits(p[byte], bit, bitval, 8);
      p[byte] := WithBit(p[byte], bit, bitval);
      OneBitSet(before, p[..], offset + j, bitval);
      j := j + 1;
    }
  }

  lemma OneBitSet(s: seq<Byte>, t: seq<Byte>, at: nat, v: nat)
    requires at < 8 * |s| && v <= 1 && |t| == |s|
    requires forall k :: 0 <= k < |s| ==> t[k] == if k == at / 8 then WithBit(s[at / 8], 7 - at % 8, v) else s[k]
    ensures forall i :: 0 <= i < 8 * |s| ==> BitAt(t, i) == if i == at then v else BitAt(s, i)
  {
    hide NumberBit, WithBit;
    forall i | 0 <= i < 8 * |s|
      ensures BitAt(t, i) == if i == at then v else BitAt(s, i)
    {
      if i / 8 == at / 8 {
        WithBitBits(s[at / 8], 7 - at % 8, v, 7 - i % 8);
      }
    }
  }

  /** The field read as an unsigned number; bits past the end are zero. */
  function Field(s: seq<Byte>, offset: nat, bits: nat): (v: nat)
    ensures v < Pow2(bits)
  {
    if bits == 0 then 0 else 2 * Field(s, offset, bits - 1) + PaddedBit(s, offset + bits - 1)
  }

  lemma {:induction false} FieldBits(s: seq<Byte>, offset: nat, bits: nat, k: nat)
    requires k < bits
    ensures NumberBit(Field(s, offset, bits), k) == PaddedBit(s, offset + bits - 1 - k)
  {
    if k > 0 {
      FieldBits(s, offset, bits - 1, k - 1);
    }
  }

  /** What was stored is what is read, reduced to the width of the field. */
  lemma FieldAfterSet(s: seq<Byte>, offset: nat, bits: nat, value: nat)
    requires offset + bits <= 8 * |s|
    requires forall i :: offset <= i < offset + bits ==> BitAt(s, i) == NumberBit(value, bits - 1 - (i - offset))
    ensures Field(s, offset, bits) == value % Pow2(bits)
  {
    hide NumberBit, Field;
    forall k | 0 <= k < bits
      ensures NumberBit(Field(s, offset, bits), k) == NumberBit(value % Pow2(bits), k)
    {
      FieldBits(s, offset, bits, k);
      BitsOfMod(value, bits, k);
      assert BitAt(s, offset + bits - 1 - k) == NumberBit(value, bits - 1 - ((offset + bits - 1 - k) - offset));
    }
    BitsDecide(Field(s, offset, bits), value % Pow2(bits), bits);
  }

  /** getUnsignedBitfield. */
  method GetUnsignedBitfield(p: seq<Byte>, offset: nat, bits: nat) returns (value: nat)
    requires offset + bits <= 8 * |p|
    ensures value == Field(p, offset, bits)
  {
    value := 0;
    var j := 0;
    while j < bits
      invariant 0 <= j <= bits && value == Field(p, offset, j)
    {
      var bitval := NumberBit(p[(offset + j) / 8], 7 - (offset + j) % 8);
      value := value * 2 + bitval;
      j := j + 1;
    }
  }

  /** A field read as a number of its kind. */
  function Signed(v: nat, bits: nat): int
    requires bits >= 1
  {
    if v >= Pow2(bits - 1) then v - Pow2(bits) else v
  }

  function FieldValue(sign: bool, s: seq<Byte>, offset: nat, bits: nat): int
    requires bits >= 1
  {
    if sign then Signed(Field(s, offset, bits), bits) else Field(s, offset, bits)
  }

  /** getSignedBitfield: the top bit is copied to all higher bits of the 64-bit value. */
  method GetSignedBitfield(p: seq<Byte>, offset: nat, bits: nat) returns (value: int)
    requires offset + bits <= 8 * |p| && 1 <= bits <= 63
    ensures value == FieldValue(true, p, offset, bits)
  {
    var u := GetUnsignedBitfield(p, offset, bits);
    TopBit(u, bits);
    Pow2Grows(bits, 63);
    Pow2Of64();
    if NumberBit(u, bits - 1) == 1 {
      value := ToI64(u + (TWO_64 - Pow2(bits)));
    } else {
      value := ToI64(u);
    }
  }

  // ----- ranges and overflow -----

  function Lowest(sign: bool, bits: nat): int
    requires bits >= 1
  {
    if sign then 0 - Pow2(bits - 1) else 0
  }

  function Highest(sign: bool, bits: nat): int
    requires bits >= 1
  {
    if sign then Pow2(bits - 1) - 1 else Pow2(bits) - 1
  }

  predicate InRange(sign: bool, bits: nat, x: int)
    requires bits >= 1
  {
    Lowest(sign, bits) <= x <= Highest(sign, bits)
  }

  /** The number of the range that differs from x by a multiple of 2^bits. */
  function Wrapped(sign: bool, bits: nat, x: int): (w: int)
    requires bits >= 1
  {
    if sign then Signed(x % Pow2(bits), bits) else x % Pow2(bits)
  }

  /** What an increment to x stores and answers, None when it is refused. */
  function Result(sign: bool, bits: nat, ow: Overflow, x: int): Option<int>
    requires bits >= 1
  {
    if InRange(sign, bits, x) then Some(x)
    else match ow
         case Wrap => Some(Wrapped(sign, bits, x))
         case Sat => Some(if x > Highest(sign, bits) then Highest(sign, bits) else Lowest(sign, bits))
         case Fail => None
  }

  /** Saturating gives the number of the range that is nearest to x, refusing happens exactly outside the range, and
      nothing happens to a number inside it. */
  lemma ResultExactly(sign: bool, bits: nat, ow: Overflow, x: int, y: int)
    requires bits >= 1 && InRange(sign, bits, y)
    ensures InRange(sign, bits, x) ==> Result(sign, bits, ow, x) == Some(x)
    ensures Result(sign, bits, ow, x).None? <==> ow == Fail && !InRange(sign, bits, x)
    ensures ow == Sat ==> var r := Result(sign, bits, Sat, x).value;
                          InRange(sign, bits, r) && (x <= r <= y || y <= r <= x || r == x)
    ensures ow == Wrap ==> var r := Result(sign, bits, Wrap, x).value;
                           InRange(sign, bits, r) && (r - x) % Pow2(bits) == 0
  {
    hide Pow2;
    WrappedIsCongruent(sign, bits, x);
  }

  /** The wrapped number is in the range, and equal to x modulo 2^bits. */
  lemma WrappedIsCongruent(sign: bool, bits: nat, x: int)
    requires bits >= 1
    ensures InRange(sign, bits, Wrapped(sign, bits, x)) && (Wrapped(sign, bits, x) - x) % Pow2(bits) == 0
    ensures InRange(sign, bits, x) ==> Wrapped(sign, bits, x) == x
  {
    hide Pow2;
    var d := Pow2(bits);
    Pow2Next(bits - 1);
    ModDiff(x, d);
    ModShift(x % d - x, d, -1);
    if 0 <= x < d {
      ModUnique(x, d, 0, x);
    } else if -d <= x < 0 {
      ModUnique(x, d, -1, x + d);
    }
  }

  lemma ModDiff(x: int, d: nat)
    requires d > 0
    ensures (x % d - x) % d == 0 && 0 <= x % d < d
  {
    DivMod(x, d);
    Distribute(x / d, -(x / d), d);
    ModUnique(x % d - x, d, -(x / d), 0);
  }

  datatype Check = Check(overflow: int, limit: int)

  function Limit(ow: Overflow, wrapped: int, bound: int): int {
    if ow == Wrap then wrapped else bound
  }

  /** checkUnsignedBitfieldOverflow in 64-bit arithmetic. */
  function CheckUnsigned(value: nat, incr: int, bits: nat, ow: Overflow): Check
    requires 1 <= bits <= 63
  {
    var max: int := Pow2(bits) - 1;
    var maxincr := ToI64(max - value);
    var minincr := ToI64(0 - value);
    var wrapped := ToU64(value + ToU64(incr)) % Pow2(bits);
    if value > max || (incr > 0 && incr > maxincr) then Check(1, Limit(ow, wrapped, max))
    else if incr < 0 && incr < minincr then Check(if ow == Wrap then 1 else -1, Limit(ow, wrapped, 0))
    else Check(0, 0)
  }

  /** checkSignedBitfieldOverflow in 64-bit arithmetic, where max - value and min - value may wrap around. */
  function CheckSigned(value: int, incr: int, bits: nat, ow: Overflow): Check
    requires 1 <= bits <= 63
  {
    var max: int := Pow2(bits - 1) - 1;
    var min := -max - 1;
    var maxincr := ToI64(max - value);
    var minincr := ToI64(min - value);
    var c := ToU64(ToU64(value) + ToU64(incr));
    var wrapped := if NumberBit(c, bits - 1) == 1 then ToI64(c % Pow2(bits) + (TWO_64 - Pow2(bits))) else c % Pow2(bits);
    if value > max || incr > maxincr || (value >= 0 && incr > 0 && incr > maxincr) then Check(1, Limit(ow, wrapped, max))
    else if value < min || incr < minincr || (value < 0 && incr < 0 && incr < minincr) then
      Check(if ow == Wrap then 1 else -1, Limit(ow, wrapped, min))
    else Check(0, 0)
  }

  predicate IsI64(x: int) {
    -TWO_63 <= x < TWO_63
  }

  /** What an overflow check must say about x = value + incr. */
  ghost predicate Right(sign: bool, bits: nat, ow: Overflow, x: int, check: Check)
    requires bits >= 1
  {
    && (check.overflow != 0 <==> !InRange(sign, bits, x))
    && (check.overflow != 0 && ow != Fail ==> Result(sign, bits, ow, x) == Some(check.limit))
  }

  lemma FitsI64(x: int)
    requires IsI64(x)
    ensures ToI64(x) == x
  {
  }

  lemma FitsU64(x: nat)
    requires x < TWO_64
    ensures ToU64(x) == x
  {
  }

  lemma SumOfU64(a: int, b: int)
    ensures ToU64(ToU64(a) + ToU64(b)) == ToU64(a + b)
  {
    var k := a / TWO_64 + b / TWO_64;
    assert a + b == ToU64(a) + ToU64(b) + k * TWO_64;
    ModShift(ToU64(a) + ToU64(b), TWO_64, k);
  }

  lemma Bounds(bits: nat)
    requires 1 <= bits <= 63
    ensures Pow2(bits) == 2 * Pow2(bits - 1) && Pow2(bits) <= TWO_63
  {
    Pow2Grows(bits, 63);
    Pow2Of64();
  }

  lemma UnsignedCheckIsRight(value: nat, incr: int, bits: nat, ow: Overflow)
    requires 1 <= bits <= 63 && InRange(false, bits, value) && IsI64(incr)
    ensures Right(false, bits, ow, value + incr, CheckUnsigned(value, incr, bits, ow))
  {
    hide Pow2, ToI64, ToU64;
    Bounds(bits);
    FitsI64(Pow2(bits) - 1 - value);
    FitsI64(0 - value);
    FitsU64(value);
    SumOfU64(value, incr);
    ModOfU64(value + incr, bits);
  }

  lemma SignedWrapIsRight(x: int, bits: nat)
    requires 1 <= bits <= 63
    ensures var c := ToU64(x);
            Wrapped(true, bits, x) ==
            if NumberBit(c, bits - 1) == 1 then ToI64(c % Pow2(bits) + (TWO_64 - Pow2(bits))) else c % Pow2(bits)
  {
    hide NumberBit;
    var c := ToU64(x);
    Bounds(bits);
    ModOfU64(x, bits);
    BitsOfMod(c, bits, bits - 1);
    TopBit(c % Pow2(bits), bits);
  }

  lemma SignedCheckIsRight(value: int, incr: int, bits: nat, ow: Overflow)
    requires 1 <= bits <= 63 && InRange(true, bits, value) && IsI64(incr)
    ensures Right(true, bits, ow, value + incr, CheckSigned(value, incr, bits, ow))
  {
    hide NumberBit, Wrapped, Pow2, ToI64, ToU64;
    Bounds(bits);
    SumOfU64(value, incr);
    SignedWrapIsRight(value + incr, bits);
    FitsI64(Pow2(bits - 1) - 1 - value);
    FitsI64(0 - Pow2(bits - 1) - value);
  }

  // ----- the operations of the command -----

  /** Storing a number of the range and reading the field gives it back. */
  lemma StoredReadsBack(sign: bool, s: seq<Byte>, offset: nat, bits: nat, v: int)
    requires 1 <= bits <= 63 && InRange(sign, bits, v) && offset + bits <= 8 * |s|
    requires forall i :: offset <= i < offset + bits ==> BitAt(s, i) == NumberBit(ToU64(v), bits - 1 - (i - offset))
    ensures FieldValue(sign, s, offset, bits) == v
  {
    hide NumberBit, Field, Pow2, BitAt;
    FieldAfterSet(s, offset, bits, ToU64(v));
    ModOfU64(v, bits);
    WrappedIsCongruent(sign, bits, v);
  }

  lemma FieldInRange(sign: bool, s: seq<Byte>, offset: nat, bits: nat)
    requires 1 <= bits
    ensures InRange(sign, bits, FieldValue(sign, s, offset, bits))
  {
    hide Field, Pow2;
    Pow2Next(bits - 1);
  }

  /** INCRBY: reads, checks, and writes unless refused. The answer is the sum under the overflow policy, the field
      holds it afterwards, and no other bit changes. */
  method IncrBy(p: array<Byte>, sign: bool, offset: nat, bits: nat, incr: int, ow: Overflow) returns (reply: Option<int>)
    requires 1 <= bits <= 63 && offset + bits <= 8 * p.Length && IsI64(incr)
    modifies p
    ensures reply == Result(sign, bits, ow, old(FieldValue(sign, p[..], offset, bits)) + incr)
    ensures FieldValue(sign, p[..], offset, bits) ==
            if reply.Some? then reply.value else old(FieldValue(sign, p[..], offset, bits))
    ensures forall i :: 0 <= i < 8 * p.Length && !(offset <= i < offset + bits) ==> BitAt(p[..], i) == old(BitAt(p[..], i))
    ensures reply.None? ==> p[..] == old(p[..])
  {
    hide NumberBit, Field, Pow2, BitAt, CheckSigned, CheckUnsigned, Wrapped;
    var oldval: int;
    if sign {
      oldval := GetSignedBitfield(p[..], offset, bits);
    } else {
      oldval := GetUnsignedBitfield(p[..], offset, bits);
    }
    FieldInRange(sign, p[..], offset, bits);
    var check: Check;
    if sign {
      check := CheckSigned(oldval, incr, bits, ow);
      SignedCheckIsRight(oldval, incr, bits, ow);
    } else {
      check := CheckUnsigned(oldval, incr, bits, ow);
      UnsignedCheckIsRight(oldval, incr, bits, ow);
    }
    var newval := if check.overflow != 0 then check.limit else oldval + incr;
    if check.overflow != 0 && ow == Fail {
      return None;
    }
    ResultInRange(sign, bits, ow, oldval + incr);
    SetUnsignedBitfield(p, offset, bits, ToU64(newval));
    StoredReadsBack(sign, p[..], offset, bits, newval);
    return Some(newval);
  }

  lemma ResultInRange(sign: bool, bits: nat, ow: Overflow, x: int)
    requires bits >= 1
    ensures Result(sign, bits, ow, x).Some? ==> InRange(sign, bits, Result(sign, bits, ow, x).value)
  {
    hide Pow2;
    Pow2Next(bits - 1);
    WrappedIsCongruent(sign, bits, x);
  }

  /** GET: at most nine bytes are copied to a zeroed buffer, and the field is read there. The answer is that of the
      string extended with zeros, whatever its length. */
  method GetThroughCopy(src: seq<Byte>, sign: bool, offset: nat, bits: nat) returns (value: int)
    requires 1 <= bits <= 63
    ensures value == FieldValue(sign, src, offset, bits)
  {
    hide Field, Pow2;
    var buf := new Byte[9](_ => 0);
    var byte, i := offset / 8, 0;
    while i < 9
      invariant 0 <= i <= 9
      invariant forall k :: 0 <= k < 9 ==> buf[k] == if k < i && k + byte < |src| then src[k + byte] else 0
    {
      if i + byte >= |src| {
        break;
      }
      buf[i] := src[i + byte];
      i := i + 1;
    }
    assert forall k :: 0 <= k < 9 ==> buf[..][k] == if k + byte < |src| then src[k + byte] else 0;
    CopyReadsSame(src, buf[..], offset, bits);
    if sign {
      value := GetSignedBitfield(buf[..], offset - byte * 8, bits);
    } else {
      value := GetUnsignedBitfield(buf[..], offset - byte * 8, bits);
    }
  }

  lemma SameByte(k: nat, i: nat)
    ensures (8 * k + i) / 8 == k + i / 8 && (8 * k + i) % 8 == i % 8
  {
  }

  lemma {:induction false} CopyReadsSame(src: seq<Byte>, buf: seq<Byte>, offset: nat, bits: nat)
    requires |buf| == 9 && bits <= 64
    requires forall k :: 0 <= k < 9 ==> buf[k] == if k + offset / 8 < |src| then src[k + offset / 8] else 0
    ensures Field(buf, offset - offset / 8 * 8, bits) == Field(src, offset, bits)
  {
    hide Pow2, PaddedBit;
    if bits > 0 {
      CopyReadsSame(src, buf, offset, bits - 1);
      CopiedBit(src, buf, offset / 8, offset - offset / 8 * 8 + bits - 1);
    }
  }

  lemma CopiedBit(src: seq<Byte>, buf: seq<Byte>, byte: nat, i: nat)
    requires |buf| == 9 && i < 72
    requires forall k :: 0 <= k < 9 ==> buf[k] == if k + byte < |src| then src[k + byte] else 0
    ensures PaddedBit(buf, i) == PaddedBit(src, 8 * byte + i)
  {
    hide NumberBit;
    SameByte(byte, i);
    if byte + i / 8 >= |src| {
      ZeroBits(7 - i % 8);
    }
  }

  // ----- SET -----

  /** The check made for SET is right except when saturating: a signed value so low that max - value overflows, and
      every negative value for an unsigned field, which is read as a large positive one. */
  predicate SetIsRight(sign: bool, bits: nat, ow: Overflow, value: int)
    requires bits >= 1
  {
    ow != Sat || value >= if sign then Highest(true, bits) - (TWO_63 - 1) else 0
  }

  function CheckSet(sign: bool, value: int, bits: nat, ow: Overflow): Check
    requires 1 <= bits <= 63
  {
    if sign then CheckSigned(value, 0, bits, ow) else CheckUnsigned(ToU64(value), 0, bits, ow)
  }

  /** Right exactly under that condition; otherwise the answer is the maximum. */
  lemma SetCheckExactly(sign: bool, value: int, bits: nat, ow: Overflow)
    requires 1 <= bits <= 63 && IsI64(value)
    ensures Right(sign, bits, ow, value, CheckSet(sign, value, bits, ow)) <==> SetIsRight(sign, bits, ow, value)
    ensures !SetIsRight(sign, bits, ow, value) ==> CheckSet(sign, value, bits, ow) == Check(1, Highest(sign, bits))
  {
    if sign {
      SignedSetExactly(value, bits, ow);
    } else {
      UnsignedSetExactly(value, bits, ow);
    }
  }

  lemma SignedSetExactly(value: int, bits: nat, ow: Overflow)
    requires 1 <= bits <= 63 && IsI64(value)
    ensures Right(true, bits, ow, value, CheckSigned(value, 0, bits, ow)) <==> SetIsRight(true, bits, ow, value)
    ensures !SetIsRight(true, bits, ow, value) ==> CheckSigned(value, 0, bits, ow) == Check(1, Highest(true, bits))
  {
    hide NumberBit, Wrapped, Pow2, ToI64, ToU64;
    Bounds(bits);
    SumOfU64(value, 0);
    SignedWrapIsRight(value, bits);
    var max := Pow2(bits - 1) - 1;
    if IsI64(max - value) {
      FitsI64(max - value);
    } else {
      WrapsDown(max - value);
    }
    if value <= max && IsI64(max - value) {
      FitsI64Below(value, max);
    }
  }

  lemma UnsignedSetExactly(value: int, bits: nat, ow: Overflow)
    requires 1 <= bits <= 63 && IsI64(value)
    ensures Right(false, bits, ow, value, CheckUnsigned(ToU64(value), 0, bits, ow)) <==> SetIsRight(false, bits, ow, value)
    ensures !SetIsRight(false, bits, ow, value) ==> CheckUnsigned(ToU64(value), 0, bits, ow) == Check(1, Highest(false, bits))
  {
    hide Pow2, ToI64, ToU64;
    Bounds(bits);
    UnsignedReading(value);
    SumOfU64(ToU64(value), 0);
    ModOfU64(value, bits);
    if 0 <= value < Pow2(bits) {
      FitsI64(Pow2(bits) - 1 - value);
      FitsI64(0 - value);
    }
  }

  lemma UnsignedReading(value: int)
    requires IsI64(value)
    ensures ToU64(value) == (if value >= 0 then value else value + TWO_64) && ToU64(ToU64(value)) == ToU64(value) && ToU64(0) == 0
  {
  }

  /** SET: answers with what the field held. Afterwards the field holds the value under the overflow policy, or the
      maximum where the check is not right, and no other bit changes. */
  method Set(p: array<Byte>, sign: bool, offset: nat, bits: nat, value: int, ow: Overflow) returns (reply: Option<int>)
    requires 1 <= bits <= 63 && offset + bits <= 8 * p.Length && IsI64(value)
    modifies p
    ensures reply.Some? ==> reply.value == old(FieldValue(sign, p[..], offset, bits))
    ensures reply.None? <==> ow == Fail && !InRange(sign, bits, value)
    ensures reply.Some? ==> FieldValue(sign, p[..], offset, bits) == if SetIsRight(sign, bits, ow, value)
                                                                       then Result(sign, bits, ow, value).value
                                                                       else Highest(sign, bits)
    ensures forall i :: 0 <= i < 8 * p.Length && !(offset <= i < offset + bits) ==> BitAt(p[..], i) == old(BitAt(p[..], i))
    ensures reply.None? ==> p[..] == old(p[..])
  {
    hide NumberBit, Field, Pow2, BitAt, CheckSigned, CheckUnsigned, Wrapped;
    var oldval: int;
    if sign {
      oldval := GetSignedBitfield(p[..], offset, bits);
    } else {
      oldval := GetUnsignedBitfield(p[..], offset, bits);
    }
    var check := CheckSet(sign, value, bits, ow);
    SetCheckExactly(sign, value, bits, ow);
    if check.overflow != 0 && ow == Fail {
      return None;
    }
    var newval := if check.overflow != 0 then check.limit else value;
    ResultInRange(sign, bits, ow, value);
    HighestInRange(sign, bits);
    SetUnsignedBitfield(p, offset, bits, ToU64(newval));
    StoredReadsBack(sign, p[..], offset, bits, newval);
    return Some(oldval);
  }

  lemma HighestInRange(sign: bool, bits: nat)
    requires bits >= 1
    ensures InRange(sign, bits, Highest(sign, bits))
  {
  }

  lemma WrapsDown(x: int)
    requires TWO_63 <= x < TWO_64
    ensures ToI64(x) == x - TWO_64
  {
  }

  lemma FitsI64Below(value: int, max: int)
    requires value <= max && IsI64(max - value) && 0 <= max < TWO_63 / 2
    ensures IsI64(-max - 1 - value) && ToI64(-max - 1 - value) == -max - 1 - value
  {
  }

  /** For example the least 64-bit value, saturated to eight bits. */
  lemma SaturatesTheWrongWay()
    ensures CheckSigned(-TWO_63, 0, 8, Sat) == Check(1, 127) && Result(true, 8, Sat, -TWO_63) == Some(-128)
  {
    Pow2Of4();
    assert Pow2(7) == 128 && Pow2(8) == 256;
  }
}
