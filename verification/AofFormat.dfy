/** The text of the append-only file: RESP arrays of bulk strings, as printed by the server, and the number
    syntax of the C library with which the loader reads it back. */
module AofFormat {

  /** One character per byte. */
  type Bytes = string
  type Command = seq<Bytes>

  const LONG_MAX := 0x7FFF_FFFF_FFFF_FFFF
  const INT_MAX := 0x7FFF_FFFF
  const CRLF: Bytes := "\r\n"

  predicate IsDigit(c: char) {
    '0' <= c <= '9'
  }

  predicate IsSpace(c: char) {
    c == ' ' || '\t' <= c <= '\r'
  }

  function DigitOf(n: nat): char
    requires n < 10
  {
    '0' + n as char
  }

  function ValueOf(c: char): nat
    requires IsDigit(c)
  {
    c as int - '0' as int
  }

  function Decimal(n: nat): (s: Bytes)
    ensures s != [] && (forall c :: c in s ==> IsDigit(c)) && (n > 0 ==> s[0] != '0')
  {
    if n < 10 then [DigitOf(n)] else Decimal(n / 10) + [DigitOf(n % 10)]
  }

  /** The value of the digits `s` starts with, continuing from `acc`. */
  function DigitRun(s: Bytes, acc: nat): (n: nat)
    ensures n >= acc
  {
    if s == [] || !IsDigit(s[0]) then acc else DigitRun(s[1..], acc * 10 + ValueOf(s[0]))
  }

  function SkipSpace(s: Bytes): Bytes {
    if s == [] || !IsSpace(s[0]) then s else SkipSpace(s[1..])
  }

  /** strtol in base ten: blanks, a sign, digits; the value is clamped to a long. */
  function StrToL(s: Bytes): (v: int)
    ensures -LONG_MAX - 1 <= v <= LONG_MAX
  {
    var t := SkipSpace(s);
    if t != [] && t[0] == '-' then
      var v: int := DigitRun(t[1..], 0); if v > LONG_MAX then -LONG_MAX - 1 else -v
    else
      var v := DigitRun(if t != [] && t[0] == '+' then t[1..] else t, 0); if v > LONG_MAX then LONG_MAX else v
  }

  /** atoi: strtol cut to an int. */
  function Atoi(s: Bytes): (v: int)
    ensures -INT_MAX - 1 <= v <= INT_MAX
  {
    var v := (StrToL(s) + INT_MAX + 1) % 0x1_0000_0000;
    v - INT_MAX - 1
  }

  function Bulk(a: Bytes): Bytes {
    "$" + Decimal(|a|) + CRLF + a + CRLF
  }

  function Bulks(c: Command): Bytes {
    if c == [] then [] else Bulk(c[0]) + Bulks(c[1..])
  }

  function PrintCommand(c: Command): Bytes {
    "*" + Decimal(|c|) + CRLF + Bulks(c)
  }

  function PrintLog(cs: seq<Command>): Bytes {
    if cs == [] then [] else PrintCommand(cs[0]) + PrintLog(cs[1..])
  }

  /** What a command of the server satisfies: argc is an int, every length a long. */
  ghost predicate WellFormed(c: Command) {
    1 <= |c| <= INT_MAX && forall i :: 0 <= i < |c| ==> |c[i]| <= LONG_MAX
  }

  ghost predicate WellFormedLog(cs: seq<Command>) {
    forall i :: 0 <= i < |cs| ==> WellFormed(cs[i])
  }

  /** catAppendOnlyGenericCommand: the header, then one bulk string per argument. */
  method CatAppendOnlyGenericCommand(dst: Bytes, argv: Command) returns (r: Bytes)
    ensures r == dst + PrintCommand(argv)
  {
    hide Decimal;
    r := dst + "*" + Decimal(|argv|) + CRLF;
    var j := 0;
    assert argv[0..] == argv;
    while j < |argv|
      invariant 0 <= j <= |argv|
      invariant r + Bulks(argv[j..]) == dst + PrintCommand(argv)
    {
      assert argv[j..][0] == argv[j] && argv[j..][1..] == argv[j + 1..];
      ghost var before := r;
      r := r + "$" + Decimal(|argv[j]|) + CRLF;
      r := r + argv[j] + CRLF;
      assert r == before + Bulk(argv[j]);
      Assoc(before, Bulk(argv[j]), Bulks(argv[j + 1..]));
      j := j + 1;
    }
    assert argv[j..] == [];
  }

  lemma Assoc(x: Bytes, y: Bytes, z: Bytes)
    ensures (x + y) + z == x + (y + z)
  {
  }

  lemma {:induction false} PrintLogConcat(a: seq<Command>, b: seq<Command>)
    ensures PrintLog(a + b) == PrintLog(a) + PrintLog(b)
  {
    hide PrintCommand;
    if a == [] {
      assert a + b == b;
    } else {
      PrintLogConcat(a[1..], b);
      assert (a + b)[0] == a[0] && (a + b)[1..] == a[1..] + b;
      Assoc(PrintCommand(a[0]), PrintLog(a[1..]), PrintLog(b));
    }
  }

  lemma PrintOne(c: Command)
    ensures PrintLog([c]) == PrintCommand(c)
  {
    assert [c][1..] == [];
    assert PrintCommand(c) + [] == PrintCommand(c);
  }

  function Power10(n: nat): nat {
    if n == 0 then 1 else 10 * Power10(n - 1)
  }

  lemma MulTen(a: nat, p: nat)
    ensures (a * p) * 10 == a * (10 * p)
  {
  }

  /** Reading the digits of a decimal gives the number back, and goes on with what follows. */
  lemma {:induction false} DecimalReads(n: nat, rest: Bytes, acc: nat)
    ensures DigitRun(Decimal(n) + rest, acc) == DigitRun(rest, acc * Power10(|Decimal(n)|) + n)
  {
    if n < 10 {
      assert (Decimal(n) + rest)[0] == DigitOf(n) && (Decimal(n) + rest)[1..] == rest;
    } else {
      var d := [DigitOf(n % 10)];
      assert Decimal(n) + rest == Decimal(n / 10) + (d + rest);
      DecimalReads(n / 10, d + rest, acc);
      assert (d + rest)[0] == d[0] && (d + rest)[1..] == rest;
      var p := acc * Power10(|Decimal(n / 10)|);
      assert (p + n / 10) * 10 + n % 10 == p * 10 + n;
      MulTen(acc, Power10(|Decimal(n / 10)|));
    }
  }

  lemma {:induction false} DecimalIsShort(n: nat, k: nat)
    requires k >= 1 && n < Power10(k)
    ensures |Decimal(n)| <= k
  {
    if n >= 10 {
      DecimalIsShort(n / 10, k - 1);
    }
  }
}
