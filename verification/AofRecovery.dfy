/** What loading makes of a printed log, whole or cut anywhere by a crash. */
module AofRecovery {

  import opened AofFormat
  import opened AofLoad

  ghost predicate NoNewline(s: Bytes) {
    '\n' !in s
  }

  lemma {:induction false} LineThroughNewline(head: Bytes, rest: Bytes, limit: nat)
    requires NoNewline(head) && |head| < limit
    ensures LineLen(head + "\n" + rest, limit) == |head| + 1
  {
    var s := head + "\n" + rest;
    if head != [] {
      assert s[0] == head[0] && s[0] in head;
      assert s[1..] == head[1..] + "\n" + rest;
      LineThroughNewline(head[1..], rest, limit - 1);
    }
  }

  lemma {:induction false} LineToTheEnd(s: Bytes, limit: nat)
    requires NoNewline(s) && |s| <= limit
    ensures LineLen(s, limit) == |s|
  {
    if s != [] {
      assert s[0] in s;
      LineToTheEnd(s[1..], limit - 1);
    }
  }

  /** The header line of `n` after its mark, without the newline. */
  function Head(mark: char, n: nat): Bytes {
    [mark] + Decimal(n) + "\r"
  }

  lemma HeadIsALine(mark: char, n: nat)
    requires n <= LONG_MAX && mark != '\n'
    ensures NoNewline(Head(mark, n)) && |Head(mark, n)| < LINE_MAX
  {
    assert Power10(19) == 10_000_000_000_000_000_000 by {
      PowersOfTen();
    }
    DecimalIsShort(n, 19);
  }

  lemma PowersOfTen()
    ensures Power10(19) == 10_000_000_000_000_000_000
  {
    assert Power10(4) == 10_000;
    assert Power10(8) == 100_000_000;
    assert Power10(12) == 1_000_000_000_000;
    assert Power10(16) == 10_000_000_000_000_000;
  }

  /** Numbers read back as they were printed. */
  lemma NumberReads(n: nat, rest: Bytes)
    requires n <= LONG_MAX && (rest == [] || !IsDigit(rest[0]))
    ensures StrToL(Decimal(n) + rest) == n
    ensures n <= INT_MAX ==> Atoi(Decimal(n) + rest) == n
  {
    hide Decimal, Power10, SkipSpace;
    var s := Decimal(n) + rest;
    assert s[0] == Decimal(n)[0] && IsDigit(s[0]);
    NoSpace(s);
    DecimalReads(n, rest, 0);
    NoMoreDigits(rest, n);
  }

  lemma NoSpace(s: Bytes)
    requires s != [] && IsDigit(s[0])
    ensures SkipSpace(s) == s
  {
  }

  lemma NoMoreDigits(rest: Bytes, n: nat)
    requires rest == [] || !IsDigit(rest[0])
    ensures DigitRun(rest, n) == n
  {
  }

  /** The digits left of a cut number: still a positive count, and no greater. */
  lemma {:induction false} CutNumber(n: nat, p: Bytes)
    requires n >= 1 && p != [] && p <= Decimal(n)
    ensures 1 <= DigitRun(p, 0) <= n
  {
    if p == Decimal(n) {
      assert p + [] == p;
      DecimalReads(n, [], 0);
    } else {
      assert n >= 10;
      assert p <= Decimal(n / 10);
      CutNumber(n / 10, p);
    }
  }

  lemma CutCount(n: nat, p: Bytes)
    requires 1 <= n <= INT_MAX && p != [] && p <= Decimal(n) + "\r"
    ensures 1 <= Atoi(p)
  {
    assert p[0] == Decimal(n)[0] && IsDigit(p[0]);
    assert SkipSpace(p) == p;
    if |p| <= |Decimal(n)| {
      assert p <= Decimal(n);
      CutNumber(n, p);
    } else {
      assert p == Decimal(n) + "\r";
      NumberReads(n, "\r");
    }
  }

  /** A header line is read whole, with the number in it. */
  lemma HeaderReads(mark: char, n: nat, rest: Bytes)
    requires n <= LONG_MAX && mark != '\n'
    ensures var s := [mark] + Decimal(n) + CRLF + rest; var k := LineLen(s, LINE_MAX);
            && k == |Decimal(n)| + 3 && s[..k][1..] == Decimal(n) + CRLF && s[k..] == rest
            && StrToL(s[..k][1..]) == n && (n <= INT_MAX ==> Atoi(s[..k][1..]) == n)
  {
    var s := [mark] + Decimal(n) + CRLF + rest;
    HeadIsALine(mark, n);
    assert s == Head(mark, n) + "\n" + rest;
    LineThroughNewline(Head(mark, n), rest, LINE_MAX);
    var k := LineLen(s, LINE_MAX);
    assert s[..k][1..] == Decimal(n) + CRLF;
    assert s[k..] == rest;
    NumberReads(n, CRLF);
  }

  lemma ReadsBulk(a: Bytes, rest: Bytes)
    requires |a| <= LONG_MAX
    ensures ReadBulk(Bulk(a) + rest) == Piece(a, rest)
  {
    var s := Bulk(a) + rest;
    assert s == ['$'] + Decimal(|a|) + CRLF + (a + CRLF + rest);
    HeaderReads('$', |a|, a + CRLF + rest);
    assert s[0] == '$';
    var r := a + CRLF + rest;
    assert r[..|a|] == a && r[|a| + 2..] == rest;
  }

  /** A cut header line leaves nothing to read after it. */
  lemma CutHeader(mark: char, n: nat, p: Bytes)
    requires n <= LONG_MAX && mark != '\n' && p <= Head(mark, n)
    ensures LineLen(p, LINE_MAX) == |p| && NoNewline(p) && |p| < LINE_MAX
  {
    HeadIsALine(mark, n);
    forall c | c in p
      ensures c in Head(mark, n)
    {
      var i :| 0 <= i < |p| && p[i] == c;
      assert Head(mark, n)[i] == c;
    }
    LineToTheEnd(p, LINE_MAX);
  }

  lemma CutBulk(a: Bytes, p: Bytes)
    requires |a| <= LONG_MAX && p < Bulk(a)
    ensures ReadBulk(p) == Short
  {
    var h := Head('$', |a|);
    assert Bulk(a) == h + "\n" + (a + CRLF);
    if p == [] {
    } else if |p| <= |h| {
      assert p <= h;
      assert p[0] == '$';
      CutHeader('$', |a|, p);
    } else {
      var q := p[|h| + 1..];
      assert p == ['$'] + Decimal(|a|) + CRLF + q;
      assert p[0] == '$';
      HeaderReads('$', |a|, q);
    }
  }

  lemma {:induction false} ReadsBulks(c: Command, rest: Bytes)
    requires forall i :: 0 <= i < |c| ==> |c[i]| <= LONG_MAX
    ensures ReadBulks(Bulks(c) + rest, |c|) == Piece(c, rest)
  {
    hide ReadBulk, Bulk;
    if c == [] {
      assert Bulks(c) + rest == rest;
    } else {
      Assoc(Bulk(c[0]), Bulks(c[1..]), rest);
      ReadsBulk(c[0], Bulks(c[1..]) + rest);
      ReadsBulks(c[1..], rest);
      assert [c[0]] + c[1..] == c;
    }
  }

  lemma {:induction false} CutBulks(c: Command, p: Bytes)
    requires forall i :: 0 <= i < |c| ==> |c[i]| <= LONG_MAX
    requires p < Bulks(c)
    ensures ReadBulks(p, |c|) == Short
  {
    hide ReadBulk, Bulk;
    var b := Bulk(c[0]);
    if |p| < |b| {
      assert p < b;
      CutBulk(c[0], p);
    } else {
      var q := p[|b|..];
      assert p == b + q;
      ReadsBulk(c[0], q);
      CutBulks(c[1..], q);
    }
  }

  /** A printed command reads back, whatever follows it. */
  lemma ReadsCommand(c: Command, rest: Bytes)
    requires WellFormed(c)
    ensures ReadCommand(PrintCommand(c) + rest) == Got(c, rest)
  {
    hide ReadBulks, Bulks, Atoi;
    var s := PrintCommand(c) + rest;
    assert s == ['*'] + Decimal(|c|) + CRLF + (Bulks(c) + rest);
    HeaderReads('*', |c|, Bulks(c) + rest);
    assert s[0] == '*' && IsDigit(s[1]);
    ReadsBulks(c, rest);
  }

  /** A command that a crash has cut, anywhere but before its first byte, reads as cut short. */
  lemma CutCommand(c: Command, p: Bytes)
    requires WellFormed(c) && p != [] && p < PrintCommand(c)
    ensures ReadCommand(p) == Halt(CutShort)
  {
    hide Bulks, Atoi;
    var h := Head('*', |c|);
    assert PrintCommand(c) == h + "\n" + Bulks(c);
    if |p| <= |h| {
      assert p <= h;
      assert p[0] == '*';
      CutHeader('*', |c|, p);
      assert p[..|p|] == p;
      if |p| > 1 {
        assert p[1] == Decimal(|c|)[0];
        assert p[1..] <= Decimal(|c|) + "\r";
        CutCount(|c|, p[1..]);
        assert p[|p|..] == [];
      }
    } else {
      var q := p[|h| + 1..];
      assert p == ['*'] + Decimal(|c|) + CRLF + q;
      assert p[0] == '*' && IsDigit(p[1]);
      HeaderReads('*', |c|, q);
      CutBulks(c, q);
    }
  }

  /** How many of the commands lie wholly inside the first `n` bytes of their log. */
  function Whole(cs: seq<Command>, n: nat): (k: nat)
    ensures k <= |cs|
  {
    if cs == [] || |PrintCommand(cs[0])| > n then 0 else 1 + Whole(cs[1..], n - |PrintCommand(cs[0])|)
  }

  lemma {:induction false} WholeIsGreatest(cs: seq<Command>, n: nat)
    ensures var k := Whole(cs, n); |PrintLog(cs[..k])| <= n && (k < |cs| ==> n < |PrintLog(cs[..k + 1])|)
  {
    hide PrintCommand;
    if cs == [] {
    } else if |PrintCommand(cs[0])| > n {
      assert cs[..1] == [cs[0]];
      PrintOne(cs[0]);
    } else {
      var m := n - |PrintCommand(cs[0])|;
      var k := Whole(cs[1..], m);
      WholeIsGreatest(cs[1..], m);
      assert cs[..k + 1][0] == cs[0] && cs[..k + 1][1..] == cs[1..][..k];
      if k < |cs| - 1 {
        assert cs[..k + 2][0] == cs[0] && cs[..k + 2][1..] == cs[1..][..k + 1];
      }
    }
  }

  ghost predicate AllKnown(known: Bytes -> bool, cs: seq<Command>) {
    forall i :: 0 <= i < |cs| && cs[i] != [] ==> known(cs[i][0])
  }

  /** What the loader does with the first `n` bytes of a log: it executes the whole commands and no other, and
      stops right after them. */
  ghost function ReplayOfPrefix(cs: seq<Command>, n: nat, multi: bool): Replay {
    WholeIsGreatest(cs, n);
    var k := Whole(cs, n);
    var end := |PrintLog(cs[..k])|;
    Replay(cs[..k], if n > end then CutShort else if MultiAfterAll(multi, cs[..k]) then OpenMulti else AtEnd, n - end)
  }

  lemma {:induction false} PrefixReplays(known: Bytes -> bool, cs: seq<Command>, n: nat, multi: bool)
    requires WellFormedLog(cs) && AllKnown(known, cs) && n <= |PrintLog(cs)|
    ensures LoadFrom(known, PrintLog(cs)[..n], multi) == ReplayOfPrefix(cs, n, multi)
    decreases |cs|
  {
    hide PrintCommand, ReadCommand, MultiAfter;
    var p := PrintLog(cs)[..n];
    if n == 0 {
      EmptyReplays(known, cs, multi);
    } else if |PrintCommand(cs[0])| > n {
      assert p < PrintCommand(cs[0]);
      CutCommand(cs[0], p);
      assert cs[..0] == [];
    } else {
      var m := n - |PrintCommand(cs[0])|;
      assert p == PrintCommand(cs[0]) + PrintLog(cs[1..])[..m];
      ReadsCommand(cs[0], PrintLog(cs[1..])[..m]);
      PrefixReplays(known, cs[1..], m, MultiAfter(multi, cs[0]));
      PrefixSteps(cs, n, multi);
    }
  }

  lemma EmptyReplays(known: Bytes -> bool, cs: seq<Command>, multi: bool)
    requires WellFormedLog(cs)
    ensures LoadFrom(known, [], multi) == ReplayOfPrefix(cs, 0, multi)
    ensures PrintLog(cs)[..0] == []
  {
    assert Whole(cs, 0) == 0;
    assert cs[..0] == [];
  }

  lemma PrefixSteps(cs: seq<Command>, n: nat, multi: bool)
    requires cs != [] && |PrintCommand(cs[0])| <= n
    ensures var r := ReplayOfPrefix(cs[1..], n - |PrintCommand(cs[0])|, MultiAfter(multi, cs[0]));
            ReplayOfPrefix(cs, n, multi) == Replay([cs[0]] + r.cmds, r.stop, r.left)
  {
    hide PrintCommand, MultiAfter;
    var k := Whole(cs[1..], n - |PrintCommand(cs[0])|);
    assert cs[..k + 1][0] == cs[0] && cs[..k + 1][1..] == cs[1..][..k];
    assert cs[..k + 1] == [cs[0]] + cs[1..][..k];
  }

  /** A log cut anywhere but at its first byte loads: exactly the whole commands are executed, the format error
      is never reached, and the file is cut right after them. The whole log parses back to what was printed. */
  lemma CutLogLoads(known: Bytes -> bool, cs: seq<Command>, n: nat)
    requires WellFormedLog(cs) && AllKnown(known, cs) && 0 < n <= |PrintLog(cs)|
    ensures var k := Whole(cs, n); var end := |PrintLog(cs[..k])|;
            Load(known, true, PrintLog(cs)[..n]) ==
            if n == end && !MultiAfterAll(false, cs[..k]) then Loaded(cs[..k]) else Truncated(cs[..k], end)
  {
    hide LoadFrom, PrintCommand;
    PrefixReplays(known, cs, n, false);
    StartsWithStar(cs);
  }

  lemma StartsWithStar(cs: seq<Command>)
    requires cs != []
    ensures PrintLog(cs) != [] && PrintLog(cs)[0] == '*'
  {
  }

  lemma LogLoads(known: Bytes -> bool, cs: seq<Command>)
    requires WellFormedLog(cs) && AllKnown(known, cs) && cs != [] && !MultiAfterAll(false, cs)
    ensures forall t :: Load(known, t, PrintLog(cs)) == Loaded(cs)
  {
    hide LoadFrom, PrintCommand;
    var n := |PrintLog(cs)|;
    assert PrintLog(cs)[..n] == PrintLog(cs);
    PrefixReplays(known, cs, n, false);
    StartsWithStar(cs);
    AllAreWhole(cs);
    assert cs[..|cs|] == cs;
  }

  lemma {:induction false} AllAreWhole(cs: seq<Command>)
    ensures Whole(cs, |PrintLog(cs)|) == |cs|
  {
    hide PrintCommand;
    if cs != [] {
      AllAreWhole(cs[1..]);
    }
  }

  /** Recovery is stable: loading the file again after it was cut executes the same commands and cuts nothing
      more off. */
  lemma RecoveryIsStable(known: Bytes -> bool, cs: seq<Command>, n: nat)
    requires WellFormedLog(cs) && AllKnown(known, cs) && 0 < n <= |PrintLog(cs)|
    requires var out := Load(known, true, PrintLog(cs)[..n]); out.Truncated? && out.size > 0
    ensures var out := Load(known, true, PrintLog(cs)[..n]);
            var again := Load(known, true, PrintLog(cs)[..n][..out.size]);
            && (again.Loaded? || again == out) && again.cmds == out.cmds
  {
    hide Load, PrintCommand;
    CutLogLoads(known, cs, n);
    var k := Whole(cs, n);
    var end := |PrintLog(cs[..k])|;
    WholeIsGreatest(cs, n);
    PrefixOfLog(cs, k);
    assert PrintLog(cs)[..n][..end] == PrintLog(cs[..k]);
    assert PrintLog(cs[..k])[..end] == PrintLog(cs[..k]);
    CutLogLoads(known, cs[..k], end);
    AllAreWhole(cs[..k]);
    assert cs[..k][..k] == cs[..k];
  }

  lemma PrefixOfLog(cs: seq<Command>, k: nat)
    requires k <= |cs|
    ensures PrintLog(cs[..k]) <= PrintLog(cs)
    ensures PrintLog(cs)[..|PrintLog(cs[..k])|] == PrintLog(cs[..k])
  {
    hide PrintCommand;
    assert cs == cs[..k] + cs[k..];
    PrintLogConcat(cs[..k], cs[k..]);
  }

  /** `i` opens a transaction that `j` closes. */
  ghost predicate Transaction(cs: seq<Command>, i: nat, j: nat) {
    && i < j < |cs| && !MultiAfterAll(false, cs[..i])
    && (forall m :: i < m <= j ==> MultiAfterAll(false, cs[..m]))
    && !MultiAfterAll(false, cs[..j + 1])
  }

  /** Of every transaction the executed commands hold all or nothing. */
  ghost predicate AllOrNothing(cs: seq<Command>, k: nat) {
    forall i: nat, j: nat :: Transaction(cs, i, j) ==> k <= i + 1 || j < k
  }

  /** Transactions are recovered whole exactly when the cut falls outside of every one: before the end of the
      first command after MULTI, or not before the end of the closing command. */
  lemma TransactionsSurviveExactly(cs: seq<Command>, n: nat)
    requires WellFormedLog(cs) && n <= |PrintLog(cs)|
    ensures AllOrNothing(cs, Whole(cs, n)) <==>
            forall i: nat, j: nat {:trigger Transaction(cs, i, j)} :: Transaction(cs, i, j) ==>
              n < |PrintLog(cs[..i + 2])| || |PrintLog(cs[..j + 1])| <= n
  {
    hide PrintCommand, MultiAfterAll;
    forall i: nat, j: nat | Transaction(cs, i, j)
      ensures (Whole(cs, n) <= i + 1 || j < Whole(cs, n)) <==>
              (n < |PrintLog(cs[..i + 2])| || |PrintLog(cs[..j + 1])| <= n)
    {
      WholeByLength(cs, n, i + 2);
      WholeByLength(cs, n, j + 1);
    }
  }

  lemma WholeByLength(cs: seq<Command>, n: nat, m: nat)
    requires m <= |cs|
    ensures m <= Whole(cs, n) <==> |PrintLog(cs[..m])| <= n
  {
    hide PrintCommand;
    var k := Whole(cs, n);
    WholeIsGreatest(cs, n);
    if m <= k {
      assert cs[..k][..m] == cs[..m];
      PrefixOfLog(cs[..k], m);
    } else {
      assert cs[..m][..k + 1] == cs[..k + 1];
      PrefixOfLog(cs[..m], k + 1);
    }
  }

  /** A transaction of two writes, and a crash between them. */
  const TORN: seq<Command> := [["MULTI"], ["SET", "a", "1"], ["SET", "b", "2"], ["EXEC"]]

  /** Half of the transaction is executed, and the recovered file still opens it. */
  lemma TornTransaction(known: Bytes -> bool)
    requires AllKnown(known, TORN)
    ensures var n := |PrintLog(TORN[..2])|;
            && n < |PrintLog(TORN)| && Load(known, true, PrintLog(TORN)[..n]) == Truncated(TORN[..2], n)
            && !AllOrNothing(TORN, 2)
  {
    hide Load, PrintCommand;
    var n := |PrintLog(TORN[..2])|;
    PrefixOfLog(TORN, 2);
    WholeByLength(TORN, n, 2);
    TornIsLonger();
    WholeByLength(TORN, n, 3);
    CutLogLoads(known, TORN, n);
    TornIsTransaction();
    assert Transaction(TORN, 0, 3);
  }

  lemma TornIsLonger()
    ensures 0 < |PrintLog(TORN[..2])| < |PrintLog(TORN[..3])| <= |PrintLog(TORN)|
  {
    PrefixOfLog(TORN, 3);
    assert TORN[..3] == TORN[..2] + [TORN[2]];
    PrintLogConcat(TORN[..2], [TORN[2]]);
    PrintOne(TORN[2]);
    assert TORN[..2][0] == TORN[0];
  }

  lemma TornIsTransaction()
    ensures Transaction(TORN, 0, 3)
    ensures MultiAfterAll(false, TORN[..2])
  {
    assert ToLower("MULTI") == "multi" && ToLower("SET") == "set" && ToLower("EXEC") == "exec";
    assert TORN[..0] == [] && TORN[..1] == [TORN[0]] && TORN[..2] == [TORN[0], TORN[1]];
    assert TORN[..3] == [TORN[0], TORN[1], TORN[2]] && TORN[..4] == TORN;
    assert [TORN[0]][1..] == [] && [TORN[0], TORN[1]][1..] == [TORN[1]] && [TORN[1]][1..] == [];
    assert [TORN[0], TORN[1], TORN[2]][1..] == [TORN[1], TORN[2]] && [TORN[1], TORN[2]][1..] == [TORN[2]];
    assert [TORN[2]][1..] == [];
    assert TORN[1..] == [TORN[1], TORN[2], TORN[3]] && TORN[1..][1..] == [TORN[2], TORN[3]];
    assert [TORN[2], TORN[3]][1..] == [TORN[3]] && [TORN[3]][1..] == [];
    assert MultiAfterAll(false, TORN[..1]);
    assert MultiAfterAll(false, TORN[..2]);
    assert MultiAfterAll(false, TORN[..3]);
    assert !MultiAfterAll(false, TORN[..4]);
  }
}
