/** What loading makes of a log that is damaged rather than cut: everything before the damage is executed and the
    server then refuses to start, whether or not it may truncate. */
module AofDamage {
  import opened AofFormat
  import opened AofLoad
  import opened AofRecovery

  lemma LoadStep(known: Bytes -> bool, c: Command, rest: Bytes, multi: bool)
    requires WellFormed(c) && known(c[0])
    ensures var r := LoadFrom(known, rest, MultiAfter(multi, c));
            LoadFrom(known, PrintCommand(c) + rest, multi) == Replay([c] + r.cmds, r.stop, r.left)
  {
    hide PrintCommand, ReadCommand, MultiAfter;
    ReadsCommand(c, rest);
  }

  /** The well-formed commands in front of anything are executed, and reading goes on behind them. */
  lemma {:induction false} ReadsThrough(known: Bytes -> bool, cs: seq<Command>, tail: Bytes, multi: bool)
    requires WellFormedLog(cs) && AllKnown(known, cs)
    ensures var r := LoadFrom(known, tail, MultiAfterAll(multi, cs));
            LoadFrom(known, PrintLog(cs) + tail, multi) == Replay(cs + r.cmds, r.stop, r.left)
    decreases |cs|
  {
    hide PrintCommand, LoadFrom, MultiAfter;
    if cs == [] {
      assert PrintLog(cs) + tail == tail;
      var r := LoadFrom(known, tail, multi);
      assert cs + r.cmds == r.cmds;
    } else {
      var rest := PrintLog(cs[1..]) + tail;
      Assoc(PrintCommand(cs[0]), PrintLog(cs[1..]), tail);
      LoadStep(known, cs[0], rest, multi);
      ReadsThrough(known, cs[1..], tail, MultiAfter(multi, cs[0]));
      var r := LoadFrom(known, tail, MultiAfterAll(multi, cs));
      assert [cs[0]] + (cs[1..] + r.cmds) == cs + r.cmds;
    }
  }

  /** When what follows the commands cannot be read for any reason but the end of the file, the server exits. */
  lemma RefusedAfter(known: Bytes -> bool, cs: seq<Command>, tail: Bytes, why: Stop)
    requires WellFormedLog(cs) && AllKnown(known, cs) && tail != [] && !("REDIS" <= PrintLog(cs) + tail)
    requires ReadCommand(tail) == Halt(why) && why != AtEnd && why != CutShort && why != OpenMulti
    ensures forall truncate :: Load(known, truncate, PrintLog(cs) + tail) == Exit(cs, why)
  {
    hide PrintLog, ReadCommand;
    ReadsThrough(known, cs, tail, false);
    assert cs + [] == cs;
    assert (PrintLog(cs) + tail)[|PrintLog(cs)|] == tail[0];
  }

  /** A command does not start with a star. */
  lemma NoStar(known: Bytes -> bool, cs: seq<Command>, tail: Bytes)
    requires WellFormedLog(cs) && AllKnown(known, cs) && !("REDIS" <= PrintLog(cs) + tail)
    requires tail != [] && tail[0] != '*'
    ensures forall truncate :: Load(known, truncate, PrintLog(cs) + tail) == Exit(cs, BadFormat)
  {
    hide PrintLog, LineLen;
    RefusedAfter(known, cs, tail, BadFormat);
  }

  /** A line of its own: what fgets returns of it. */
  lemma OwnLine(line: Bytes, rest: Bytes)
    requires NoNewline(line) && |line| < LINE_MAX
    ensures var s := line + "\n" + rest; var n := LineLen(s, LINE_MAX); n == |line| + 1 && s[..n] == line + "\n" && s[n..] == rest
  {
    LineThroughNewline(line, rest, LINE_MAX);
  }

  lemma DecimalHasNoNewline(n: nat)
    ensures NoNewline(Decimal(n))
  {
    assert !IsDigit('\n');
  }

  /** The digits of a number after its minus sign. */
  lemma NegativeReads(n: nat)
    requires 0 < n <= INT_MAX + 1
    ensures Atoi("-" + Decimal(n) + CRLF) == 0 - n
  {
    hide Decimal, Power10;
    var s := "-" + Decimal(n) + CRLF;
    assert s[0] == '-' && s[1..] == Decimal(n) + CRLF;
    MinusIsNoSpace(s);
    DecimalReads(n, CRLF, 0);
    NoMoreDigits(CRLF, n);
    assert StrToL(s) == 0 - n;
  }

  lemma MinusIsNoSpace(s: Bytes)
    requires s != [] && s[0] == '-'
    ensures SkipSpace(s) == s
  {
  }

  /** A count of arguments that is zero or negative. */
  lemma NoArguments(known: Bytes -> bool, cs: seq<Command>, n: nat, negative: bool, rest: Bytes)
    requires WellFormedLog(cs) && AllKnown(known, cs) && (if negative then 0 < n <= INT_MAX + 1 else n == 0)
    ensures var count := (if negative then "-" else []) + Decimal(n);
            forall truncate :: Load(known, truncate, PrintLog(cs) + ("*" + count + CRLF + rest)) == Exit(cs, BadFormat)
  {
    hide PrintLog, Atoi, ReadBulks;
    var count := (if negative then "-" else []) + Decimal(n);
    var tail := "*" + count + CRLF + rest;
    CountIsShort(n, negative);
    assert tail == ("*" + count + "\r") + "\n" + rest;
    OwnLine("*" + count + "\r", rest);
    var line := ("*" + count + "\r") + "\n";
    assert line[1..] == count + CRLF && line[1] == count[0];
    if negative {
      NegativeReads(n);
    } else {
      NumberReads(0, CRLF);
      assert count == Decimal(0);
    }
    assert ReadCommand(tail) == Halt(BadFormat);
    NotAnImage(cs, tail);
    RefusedAfter(known, cs, tail, BadFormat);
  }

  lemma CountIsShort(n: nat, negative: bool)
    requires n <= INT_MAX + 1
    ensures var count := (if negative then "-" else []) + Decimal(n);
            && NoNewline("*" + count + "\r") && |"*" + count + "\r"| < LINE_MAX && count != [] && count[0] != 0 as char
  {
    DecimalHasNoNewline(n);
    assert Power10(10) == 10_000_000_000 by {
      assert Power10(5) == 100_000;
    }
    DecimalIsShort(n, 10);
    hide Decimal;
  }

  lemma NotAnImage(cs: seq<Command>, tail: Bytes)
    requires tail != [] && tail[0] == '*'
    ensures !("REDIS" <= PrintLog(cs) + tail)
  {
    hide PrintCommand;
    var f := PrintLog(cs) + tail;
    assert "REDIS"[0] == 'R';
    if cs == [] {
      assert f[0] == tail[0];
    } else {
      StartsWithStar(cs);
      assert f[0] == PrintLog(cs)[0];
    }
  }

  /** After some good arguments, one that does not start with a dollar sign. */
  lemma {:induction false} BadBulks(args: Command, n: nat, rest: Bytes)
    requires (forall i :: 0 <= i < |args| ==> |args[i]| <= LONG_MAX) && |args| < n && rest != [] && rest[0] != '$'
    ensures ReadBulks(Bulks(args) + rest, n) == Bad
    decreases |args|
  {
    hide ReadBulk, Bulk;
    if args == [] {
      assert Bulks(args) + rest == rest;
      NoDollar(rest);
    } else {
      Assoc(Bulk(args[0]), Bulks(args[1..]), rest);
      ReadsBulk(args[0], Bulks(args[1..]) + rest);
      BadBulks(args[1..], n - 1, rest);
    }
  }

  lemma NoDollar(rest: Bytes)
    requires rest != [] && rest[0] != '$'
    ensures ReadBulk(rest) == Bad
  {
  }

  lemma NoDollarSign(known: Bytes -> bool, cs: seq<Command>, n: nat, args: Command, rest: Bytes)
    requires WellFormedLog(cs) && AllKnown(known, cs) && |args| < n <= INT_MAX
    requires (forall i :: 0 <= i < |args| ==> |args[i]| <= LONG_MAX) && rest != [] && rest[0] != '$'
    ensures var tail := "*" + Decimal(n) + CRLF + (Bulks(args) + rest);
            forall truncate :: Load(known, truncate, PrintLog(cs) + tail) == Exit(cs, BadFormat)
  {
    hide PrintLog, Atoi, Bulks;
    var tail := ['*'] + Decimal(n) + CRLF + (Bulks(args) + rest);
    HeaderReads('*', n, Bulks(args) + rest);
    assert tail[0] == '*' && IsDigit(tail[1]);
    BadBulks(args, n, rest);
    hide ReadBulks;
    assert ReadCommand(tail) == Halt(BadFormat);
    NotAnImage(cs, tail);
    RefusedAfter(known, cs, tail, BadFormat);
  }

  /** A star alone before a zero byte, in a line that ends: not the end of the file, so not taken for a cut. */
  lemma Unreadables(known: Bytes -> bool, cs: seq<Command>, line: Bytes, rest: Bytes)
    requires WellFormedLog(cs) && AllKnown(known, cs) && NoNewline(line) && |line| < LINE_MAX - 2
    ensures var tail := ("*" + [0 as char] + line) + "\n" + rest;
            forall truncate :: Load(known, truncate, PrintLog(cs) + tail) == Exit(cs, Unreadable)
  {
    hide PrintLog;
    var head := "*" + [0 as char] + line;
    var tail := head + "\n" + rest;
    OwnLine(head, rest);
    assert tail[0] == '*' && tail[1] == 0 as char;
    assert (head + "\n")[|head|] == '\n';
    assert ReadCommand(tail) == Halt(Unreadable);
    NotAnImage(cs, tail);
    RefusedAfter(known, cs, tail, Unreadable);
  }

  /** A command that the server does not know. */
  lemma UnknownCommandRefused(known: Bytes -> bool, cs: seq<Command>, c: Command, rest: Bytes)
    requires WellFormedLog(cs) && AllKnown(known, cs) && WellFormed(c) && !known(c[0])
    ensures forall truncate :: Load(known, truncate, PrintLog(cs) + (PrintCommand(c) + rest)) == Exit(cs, UnknownCommand)
  {
    hide PrintLog, ReadCommand;
    var tail := PrintCommand(c) + rest;
    assert tail[0] == '*';
    ReadsCommand(c, rest);
    ReadsThrough(known, cs, tail, false);
    assert cs + [] == cs;
    NotAnImage(cs, tail);
    assert (PrintLog(cs) + tail)[|PrintLog(cs)|] == tail[0];
  }

  /** Without leave to truncate, a log cut inside a command, or ending inside a transaction, is refused after its whole
      commands; otherwise it loads. */
  lemma CutLogRefused(known: Bytes -> bool, cs: seq<Command>, n: nat)
    requires WellFormedLog(cs) && AllKnown(known, cs) && 0 < n <= |PrintLog(cs)|
    ensures var k := Whole(cs, n); var end := |PrintLog(cs[..k])|;
            Load(known, false, PrintLog(cs)[..n]) ==
            if n > end then Exit(cs[..k], CutShort)
            else if MultiAfterAll(false, cs[..k]) then Exit(cs[..k], OpenMulti) else Loaded(cs[..k])
  {
    hide LoadFrom, PrintCommand;
    PrefixReplays(known, cs, n, false);
    StartsWithStar(cs);
    WholeIsGreatest(cs, n);
  }

  predicate Opens(c: Command) {
    c != [] && ToLower(c[0]) == "multi"
  }

  predicate Closes(c: Command) {
    c != [] && (ToLower(c[0]) == "exec" || ToLower(c[0]) == "discard")
  }

  /** A transaction is open exactly when a MULTI comes after every EXEC and DISCARD. */
  lemma {:induction false} OpenExactly(multi: bool, cs: seq<Command>)
    ensures MultiAfterAll(multi, cs) <==>
            || (multi && forall j :: 0 <= j < |cs| ==> !Closes(cs[j]))
            || exists i :: 0 <= i < |cs| && Opens(cs[i]) && forall j :: i < j < |cs| ==> !Closes(cs[j])
    decreases |cs|
  {
    hide ToLower;
    if cs != [] {
      var rest := cs[1..];
      NamesDiffer(cs[0]);
      OpenExactly(MultiAfter(multi, cs[0]), rest);
      assert forall j :: 1 <= j < |cs| ==> cs[j] == rest[j - 1];
      if i :| 0 <= i < |rest| && Opens(rest[i]) && forall j :: i < j < |rest| ==> !Closes(rest[j]) {
        assert Opens(cs[i + 1]) && forall j :: i + 1 < j < |cs| ==> !Closes(cs[j]);
      }
      if i :| 1 <= i < |cs| && Opens(cs[i]) && forall j :: i < j < |cs| ==> !Closes(cs[j]) {
        assert Opens(rest[i - 1]) && forall j :: i - 1 < j < |rest| ==> !Closes(rest[j]);
      }
    }
  }

  lemma NamesDiffer(c: Command)
    ensures !(Opens(c) && Closes(c))
  {
    assert |"multi"| == 5 && |"exec"| == 4 && |"discard"| == 7;
  }
}
