/** The translation of expires for the log: whatever way a deadline was given, the log holds it as an absolute time, so
    that replaying the log later does not move it. */
module AofExpire {
  import opened Base
  import opened AofFormat
  import opened AofLoad
  import opened AofCommands

  // ---------------------------------------------------------------- what the log says

  /** catAppendOnlyExpireAtCommand's time: milliseconds, and absolute. */
  function When(proc: Proc, text: Bytes, now: Time): int {
    var v := StrToL(text);
    var ms := if proc == Expire || proc == Setex || proc == ExpireAt then Long(v * 1000) else v;
    if proc == Expire || proc == Pexpire || proc == Setex || proc == Psetex then Long(ms + now) else ms
  }

  function ExpireCommand(key: Bytes, when: int): Command {
    ["PEXPIREAT", key, SignedDecimal(when)]
  }

  datatype Times = Times(ex: Option<Bytes>, px: Option<Bytes>)

  const NO_TIMES := Times(None, None)

  /** The loop over the options of SET: every EX and PX is looked at, wherever it stands. */
  function Scanned(opts: seq<Bytes>, found: Times): Times {
    if |opts| < 2 then found
    else if ToLower(opts[0]) == "ex" then Scanned(opts[1..], found.(ex := Some(opts[1])))
    else if ToLower(opts[0]) == "px" then Scanned(opts[1..], found.(px := Some(opts[1])))
    else Scanned(opts[1..], found)
  }

  predicate Both(found: Times) {
    found.ex.Some? && found.px.Some?
  }

  /** The assertion of feedAppendOnlyFile fails: it has found a time in either unit. */
  predicate Trips(argv: Command) {
    ProcOf(argv) == Set && |argv| > 3 && Both(Scanned(argv[3..], NO_TIMES))
  }

  function TimeCommands(key: Bytes, found: Times, now: Time): seq<Command> {
    (if found.ex.Some? then [ExpireCommand(key, When(Expire, found.ex.value, now))] else [])
    + (if found.px.Some? then [ExpireCommand(key, When(Pexpire, found.px.value, now))] else [])
  }

  /** The commands feedAppendOnlyFile writes for one that was executed. */
  function Translated(argv: Command, now: Time): seq<Command>
    requires Accepted(argv)
  {
    match ProcOf(argv)
    case Expire | Pexpire | ExpireAt => [ExpireCommand(argv[1], When(ProcOf(argv), argv[2], now))]
    case Setex | Psetex => [["SET", argv[1], argv[3]], ExpireCommand(argv[1], When(ProcOf(argv), argv[2], now))]
    case Set => if |argv| <= 3 then [argv] else [argv[..3]] + TimeCommands(argv[1], Scanned(argv[3..], NO_TIMES), now)
    case _ => [argv]
  }

  /** The same, with the loop and the assertion of the source. */
  method Translate(argv: Command, now: Time) returns (cs: Option<seq<Command>>)
    requires Accepted(argv)
    ensures cs.None? <==> Trips(argv)
    ensures cs.Some? ==> cs.value == Translated(argv, now)
  {
    hide ProcNamed, ToLower, StrToL, SignedDecimal, Parse;
    if ProcOf(argv) == Set && |argv| > 3 {
      var found, i := NO_TIMES, 3;
      ghost var opts := argv[3..];
      while i < |argv|
        invariant 3 <= i <= |argv| && Scanned(argv[i..], found) == Scanned(opts, NO_TIMES)
      {
        assert argv[i..][1..] == argv[i + 1..];
        if i + 1 < |argv| && ToLower(argv[i]) == "ex" {
          found := found.(ex := Some(argv[i + 1]));
        }
        if i + 1 < |argv| && ToLower(argv[i]) == "px" {
          found := found.(px := Some(argv[i + 1]));
        }
        OptionNames(argv[i]);
        i := i + 1;
      }
      if found.ex.Some? && found.px.Some? {
        return None;
      }
      cs := Some([argv[..3]] + TimeCommands(argv[1], found, now));
    } else {
      cs := Some(Translated(argv, now));
    }
  }

  // ---------------------------------------------------------------- the options of SET

  /** A time option is followed by the name of the other one. */
  predicate Crossed(opts: seq<Bytes>) {
    if |opts| < 2 then false
    else if ToLower(opts[0]) == "ex" then ToLower(opts[1]) == "px" || Crossed(opts[2..])
    else if ToLower(opts[0]) == "px" then ToLower(opts[1]) == "ex" || Crossed(opts[2..])
    else Crossed(opts[1..])
  }

  lemma IntegerIsNoOption(s: Bytes)
    requires IsInteger(s)
    ensures ToLower(s) != "ex" && ToLower(s) != "px"
  {
    var n := StrToL(s);
    var d := Decimal(if n < 0 then -n else n);
    assert s[0] == '-' || IsDigit(s[0]) by {
      assert n < 0 ==> s == "-" + d;
      assert d[0] in d;
    }
    assert ToLower(s)[0] == s[0];
    assert "ex"[0] == 'e' && "px"[0] == 'p';
  }

  lemma OptionNames(s: Bytes)
    ensures ToLower(s) == "ex" ==> ToLower(s) != "nx" && ToLower(s) != "xx" && ToLower(s) != "px"
    ensures ToLower(s) == "px" ==> ToLower(s) != "nx" && ToLower(s) != "xx"
  {
    assert "ex"[0] == 'e' && "px"[0] == 'p' && "nx"[0] == 'n' && "xx"[0] == 'x';
  }

  lemma {:induction false} ScanKeeps(opts: seq<Bytes>, found: Times)
    ensures found.ex.Some? ==> Scanned(opts, found).ex.Some?
    ensures found.px.Some? ==> Scanned(opts, found).px.Some?
    decreases |opts|
  {
    hide ToLower;
    if |opts| >= 2 {
      ScanKeeps(opts[1..], found);
      ScanKeeps(opts[1..], found.(ex := Some(opts[1])));
      ScanKeeps(opts[1..], found.(px := Some(opts[1])));
    }
  }

  /** The scan has found the time that setCommand holds, or setCommand's is no number and cannot be the last. */
  ghost predicate InStep(o: Options, found: Times) {
    && o.Options?
    && (found.ex.Some? <==> o.unit == Some(Seconds)) && (found.px.Some? <==> o.unit == Some(Milliseconds))
    && (found.ex.Some? ==> found.ex.value == o.time || !IsInteger(o.time))
    && (found.px.Some? ==> found.px.value == o.time || !IsInteger(o.time))
  }

  ghost predicate SameTime(o: Options, found: Times)
    requires o.Options?
  {
    found == match o.unit
             case None => NO_TIMES
             case Some(Seconds) => Times(Some(o.time), None)
             case Some(Milliseconds) => Times(None, Some(o.time))
  }

  /** Of options that setCommand accepts, looking at every argument finds the time that setCommand found, unless a time
      option is followed by the name of the other one; then it finds both. */
  lemma {:induction false} ScanFindsTime(opts: seq<Bytes>, o: Options, found: Times)
    requires InStep(o, found) && OptionsOk(Parse(opts, o))
    ensures Both(Scanned(opts, found)) <==> Crossed(opts)
    ensures !Crossed(opts) ==> SameTime(Parse(opts, o), Scanned(opts, found))
    decreases |opts|
  {
    hide ToLower, IsInteger, StrToL;
    if opts != [] {
      var a := ToLower(opts[0]);
      OptionNames(opts[0]);
      if a == "ex" || a == "px" {
        TimeOptionKeepsStep(opts, o, found);
      } else if |opts| == 1 {
        assert opts[1..] == [];
      } else {
        var o' := if a == "nx" then o.(nx := true) else o.(xx := true);
        ScanFindsTime(opts[1..], o', found);
      }
    }
  }

  lemma {:induction false} TimeOptionKeepsStep(opts: seq<Bytes>, o: Options, found: Times)
    requires InStep(o, found) && OptionsOk(Parse(opts, o)) && |opts| >= 1
    requires ToLower(opts[0]) == "ex" || ToLower(opts[0]) == "px"
    ensures Both(Scanned(opts, found)) <==> Crossed(opts)
    ensures !Crossed(opts) ==> SameTime(Parse(opts, o), Scanned(opts, found))
    decreases |opts|, 0
  {
    hide ToLower, IsInteger, StrToL;
    OptionNames(opts[0]);
    var ex := ToLower(opts[0]) == "ex";
    assert |opts| >= 2;
    var x := opts[1];
    var o' := if ex then o.(unit := Some(Seconds), time := x) else o.(unit := Some(Milliseconds), time := x);
    var found' := if ex then found.(ex := Some(x)) else found.(px := Some(x));
    assert Parse(opts, o) == Parse(opts[2..], o');
    assert Scanned(opts, found) == Scanned(opts[1..], found');
    assert opts[1..][1..] == opts[2..];
    OptionNames(x);
    if ToLower(x) == "ex" || ToLower(x) == "px" {
      if IsInteger(x) {
        IntegerIsNoOption(x);
      }
      assert opts[2..] != [];
      var found'' := if ToLower(x) == "ex" then found'.(ex := Some(opts[2])) else found'.(px := Some(opts[2]));
      assert Scanned(opts[1..], found') == Scanned(opts[2..], found'');
      if ex != (ToLower(x) == "ex") {
        ScanKeeps(opts[2..], found'');
      } else {
        ScanFindsTime(opts[2..], o', found'');
      }
    } else {
      assert Scanned(opts[1..], found') == Scanned(opts[2..], found');
      ScanFindsTime(opts[2..], o', found');
    }
  }

  /** The assertion about the two units fails exactly for the accepted SETs that give a time option, more than once,
      and put the name of the other one after it. */
  lemma TripsExactly(argv: Command)
    requires ProcOf(argv) == Set && Accepted(argv)
    ensures Trips(argv) <==> Crossed(argv[3..])
  {
    hide ToLower, IsInteger, StrToL, ProcNamed;
    ScanFindsTime(argv[3..], NO_OPTIONS, NO_TIMES);
  }

  /** One that trips it. */
  lemma TrippingSet()
    ensures var argv := ["SET", "k", "v", "EX", "px", "EX", "10"]; Accepted(argv) && Trips(argv)
  {
    var argv := ["SET", "k", "v", "EX", "px", "EX", "10"];
    LoweredNames();
    assert ToLower("EX") == "ex" && ToLower("px") == "px";
    OptionNames("EX");
    OptionNames("px");
    SignedReads(10);
    assert Decimal(10) == "10" by { assert Decimal(1) == "1"; }
    var opts := argv[3..];
    assert opts == ["EX", "px", "EX", "10"] && opts[2..] == ["EX", "10"] && opts[2..][2..] == [];
    hide ToLower, StrToL, SignedDecimal;
    var first := Options(false, false, Some(Seconds), "px");
    assert Parse(opts, NO_OPTIONS) == Parse(opts[2..], first) == Options(false, false, Some(Seconds), "10");
    TripsExactly(argv);
  }

  // ---------------------------------------------------------------- replaying the log

  lemma LoweredNames()
    ensures ProcNamed(ToLower("PEXPIREAT")) == PexpireAt && ProcNamed(ToLower("SET")) == Set
    ensures ProcNamed(ToLower("DEL")) == Del && ProcNamed(ToLower("UNLINK")) == Del
  {
    assert ToLower("PEXPIREAT") == "pexpireat" && ToLower("SET") == "set";
    assert ToLower("DEL") == "del" && ToLower("UNLINK") == "unlink";
    assert |"pexpireat"| == 9 && |"expireat"| == 8 && |"pexpire"| == 7 && |"restore"| == 7;
    assert |"expire"| == 6 && |"psetex"| == 6 && |"setex"| == 5 && |"set"| == 3 && |"del"| == 3 && |"unlink"| == 6;
    assert "set"[0] == 's' && "unlink"[0] == 'u' && "expire"[0] == 'e' && "psetex"[0] == 'p' && "del"[0] == 'd';
  }

  /** What is logged for a command that counted as a change. */
  function Logged<V>(c: Commands<V>, argv: Command, now: Time): (cs: seq<Command>)
    requires Accepted(argv)
  {
    RewrittenIsAccepted(c, argv, now);
    Translated(Rewritten(c, argv, now), now)
  }

  lemma RewrittenIsAccepted<V>(c: Commands<V>, argv: Command, now: Time)
    requires Accepted(argv)
    ensures Accepted(Rewritten(c, argv, now))
    ensures Rewritten(c, argv, now) == argv || ProcOf(Rewritten(c, argv, now)) == Del
  {
    hide ToLower, ProcNamed;
    LoweredNames();
  }

  /** The commands as the loader executes them at time `t`. */
  function ReplayAll<V>(c: Commands<V>, d: Dataset<V>, db: nat, cs: seq<Command>, t: Time): Dataset<V> {
    if cs == [] then d
    else Run(c, ReplayAll(c, d, db, cs[..|cs| - 1], t), db, cs[|cs| - 1], t, true)
  }

  lemma ReplayOne<V>(c: Commands<V>, d: Dataset<V>, db: nat, cmd: Command, t: Time)
    ensures ReplayAll(c, d, db, [cmd], t) == Run(c, d, db, cmd, t, true)
  {
    assert [cmd][..0] == [];
    assert ReplayAll(c, d, db, [], t) == d;
  }

  lemma ReplayTwo<V>(c: Commands<V>, d: Dataset<V>, db: nat, first: Command, second: Command, t: Time)
    ensures ReplayAll(c, d, db, [first, second], t) == Run(c, Run(c, d, db, first, t, true), db, second, t, true)
  {
    assert [first, second][..1] == [first];
    ReplayOne(c, d, db, first, t);
  }

  /** A logged deadline is set as it is, at whatever time it is read. */
  lemma ExpireReplays<V>(c: Commands<V>, d: Dataset<V>, db: nat, key: Bytes, when: int, t: Time)
    requires IsLong(when) && Place(db, key) in d
    ensures Run(c, d, db, ExpireCommand(key, when), t, true) == d[Place(db, key) := d[Place(db, key)].(deadline := Some(when))]
  {
    hide ToLower, ProcNamed, StrToL, SignedDecimal, IsInteger;
    LoweredNames();
    SignedReads(when);
  }

  /** A SET without options, at whatever time. */
  lemma SetReplays<V>(c: Commands<V>, d: Dataset<V>, db: nat, cmd: Command, t: Time)
    requires |cmd| == 3 && ProcOf(cmd) == Set
    ensures Run(c, d, db, cmd, t, true) == d[Place(db, cmd[1]) := Item(c.text(cmd[2]), None)]
  {
    hide ToLower, ProcNamed;
    assert cmd[3..] == [];
  }

  lemma ValueAndDeadline<V>(c: Commands<V>, d: Dataset<V>, db: nat, cmd: Command, when: int, t: Time)
    requires |cmd| == 3 && ProcOf(cmd) == Set && IsLong(when)
    ensures ReplayAll(c, d, db, [cmd, ExpireCommand(cmd[1], when)], t)
            == d[Place(db, cmd[1]) := Item(c.text(cmd[2]), Some(when))]
  {
    hide ToLower, ProcNamed, Run, ExpireCommand, ReplayAll;
    var p := Place(db, cmd[1]);
    var d1 := d[p := Item(c.text(cmd[2]), None)];
    ReplayTwo(c, d, db, cmd, ExpireCommand(cmd[1], when), t);
    SetReplays(c, d, db, cmd, t);
    ExpireReplays(c, d1, db, cmd[1], when, t);
    assert d1[p := Item(c.text(cmd[2]), Some(when))] == d[p := Item(c.text(cmd[2]), Some(when))];
  }

  /** RESTORE with a time to live, which is logged as it is. */
  predicate Relative(argv: Command) {
    ProcOf(argv) == Restore && |argv| >= 3 && StrToL(argv[2]) != 0
  }

  /** Replaying what was logged for a command, in the database it ran in, leaves the dataset that the command left when
      it was executed: the same values at the same keys with the same deadlines, no matter when the log is read. The
      one exception is RESTORE with a time to live, whose deadline then counts from the time of reading. */
  lemma LoggedReplays<V>(c: Commands<V>, d: Dataset<V>, db: nat, argv: Command, now: Time, later: Time)
    requires Takes(c, d, db, argv) && !Trips(argv)
    ensures ReplayAll(c, d, db, Logged(c, argv, now), later) == Run(c, d, db, argv, now, false)
            <==> !Relative(argv) || later == now
  {
    hide ToLower, ProcNamed, StrToL, SignedDecimal, Parse, Scanned, IsInteger, ReplayAll, When, Deadline;
    match ProcOf(argv)
    case Set => SetIsAbsolute(c, d, db, argv, now, later);
    case Setex => SetexIsAbsolute(c, d, db, argv, now, later);
    case Psetex => SetexIsAbsolute(c, d, db, argv, now, later);
    case Restore => RestoreIsRelative(c, d, db, argv, now, later);
    case Other => ReplayOne(c, d, db, argv, later);
    case Del => ReplayOne(c, d, db, argv, later);
    case _ => ExpireIsAbsolute(c, d, db, argv, now, later);
  }

  lemma ExpireIsAbsolute<V>(c: Commands<V>, d: Dataset<V>, db: nat, argv: Command, now: Time, later: Time)
    requires Takes(c, d, db, argv) && SetsDeadline(ProcOf(argv))
    ensures ReplayAll(c, d, db, Logged(c, argv, now), later) == Run(c, d, db, argv, now, false)
  {
    hide ToLower, ProcNamed, SignedDecimal, IsInteger, ReplayAll, StrToL, Long;
    var proc, when := ProcOf(argv), Deadline(ProcOf(argv), argv[2], now);
    var cmd := Rewritten(c, argv, now);
    LoweredNames();
    if when <= now {
      ReplayOne(c, d, db, cmd, later);
      assert cmd[1..] == [argv[1]];
      assert Place(db, cmd[1]) in d;
    } else if proc == PexpireAt {
      ReplayOne(c, d, db, argv, later);
    } else {
      assert When(proc, argv[2], now) == when;
      ReplayOne(c, d, db, ExpireCommand(argv[1], when), later);
      ExpireReplays(c, d, db, argv[1], when, later);
    }
  }

  lemma SetexRuns<V>(c: Commands<V>, d: Dataset<V>, db: nat, argv: Command, now: Time)
    requires Takes(c, d, db, argv) && (ProcOf(argv) == Setex || ProcOf(argv) == Psetex)
    ensures Run(c, d, db, argv, now, false)
            == d[Place(db, argv[1]) := Item(c.text(argv[3]), Some(When(ProcOf(argv), argv[2], now)))]
  {
    hide ProcOf, Long, IsInteger, StrToL;
  }

  lemma SetexIsAbsolute<V>(c: Commands<V>, d: Dataset<V>, db: nat, argv: Command, now: Time, later: Time)
    requires Takes(c, d, db, argv) && (ProcOf(argv) == Setex || ProcOf(argv) == Psetex)
    ensures ReplayAll(c, d, db, Logged(c, argv, now), later) == Run(c, d, db, argv, now, false)
  {
    hide ToLower, ProcNamed, SignedDecimal, IsInteger, ReplayAll, StrToL, Run;
    LoweredNames();
    SetexRuns(c, d, db, argv, now);
    ValueAndDeadline(c, d, db, ["SET", argv[1], argv[3]], When(ProcOf(argv), argv[2], now), later);
  }

  /** What is logged for SET: the value, then the deadline that setCommand gave it, if any. */
  lemma SetTranslates(argv: Command, now: Time)
    requires Accepted(argv) && ProcOf(argv) == Set && !Trips(argv)
    ensures ProcOf(argv[..3]) == Set
    ensures match SetDeadline(Parse(argv[3..], NO_OPTIONS), now)
            case None => Translated(argv, now) == [argv[..3]]
            case Some(when) => IsLong(when) && Translated(argv, now) == [argv[..3], ExpireCommand(argv[1], when)]
  {
    hide ToLower, ProcNamed, StrToL, SignedDecimal, Parse, Scanned, IsInteger, ExpireCommand;
    var opts := argv[3..];
    ScanFindsTime(opts, NO_OPTIONS, NO_TIMES);
    TripsExactly(argv);
    if |argv| == 3 {
      NoOptions(opts);
      assert argv[..3] == argv;
    }
  }

  lemma SetIsAbsolute<V>(c: Commands<V>, d: Dataset<V>, db: nat, argv: Command, now: Time, later: Time)
    requires Takes(c, d, db, argv) && ProcOf(argv) == Set && !Trips(argv)
    ensures ReplayAll(c, d, db, Logged(c, argv, now), later) == Run(c, d, db, argv, now, false)
  {
    hide ProcOf, Parse, Translated, SetDeadline, ReplayAll, ExpireCommand, PositiveTime, Trips;
    var first := argv[..3];
    SetTranslates(argv, now);
    match SetDeadline(Parse(argv[3..], NO_OPTIONS), now)
    case None =>
      ReplayOne(c, d, db, first, later);
      SetReplays(c, d, db, first, later);
    case Some(when) =>
      ValueAndDeadline(c, d, db, first, when, later);
  }

  lemma NoOptions(opts: seq<Bytes>)
    requires opts == []
    ensures Parse(opts, NO_OPTIONS) == NO_OPTIONS
  {
  }

  lemma RestoreIsRelative<V>(c: Commands<V>, d: Dataset<V>, db: nat, argv: Command, now: Time, later: Time)
    requires Takes(c, d, db, argv) && ProcOf(argv) == Restore
    ensures ReplayAll(c, d, db, Logged(c, argv, now), later) == Run(c, d, db, argv, now, false)
            <==> !Relative(argv) || later == now
  {
    hide ToLower, ProcNamed, StrToL, IsInteger, ReplayAll;
    ReplayOne(c, d, db, argv, later);
    var ttl := StrToL(argv[2]);
    var a, b := Run(c, d, db, argv, now, false), Run(c, d, db, argv, later, true);
    assert ttl != 0 ==> a[Place(db, argv[1])].deadline == Some(Long(now + ttl));
    assert ttl != 0 ==> b[Place(db, argv[1])].deadline == Some(Long(later + ttl));
    LongIsInjective(now, later, ttl);
  }

  /** RESTORE k 1000 at time 0, read back at time 5: the key lives five milliseconds longer. */
  lemma RestoreDrifts<V>(c: Commands<V>, payload: Bytes)
    requires c.payload(payload).Some?
    ensures var argv: Command, p := ["RESTORE", "k", "1000", payload], Place(0, "k");
            && Takes(c, map[], 0, argv)
            && Run(c, map[], 0, argv, 0, false) == map[p := Item(c.payload(payload).value, Some(1000))]
            && ReplayAll(c, map[], 0, Logged(c, argv, 0), 5) == map[p := Item(c.payload(payload).value, Some(1005))]
  {
    var argv: Command := ["RESTORE", "k", "1000", payload];
    hide ToLower, ProcNamed, ReplayAll, StrToL, IsInteger;
    RestoreIsNamed();
    ThousandReads();
    assert argv[4..] == [];
    ReplayOne(c, map[], 0, argv, 5);
  }

  lemma ThousandReads()
    ensures IsInteger("1000") && StrToL("1000") == 1000
  {
    assert Decimal(1000) == "1000" by { assert Decimal(100) == "100"; }
    SignedReads(1000);
  }

  lemma RestoreIsNamed()
    ensures ProcNamed(ToLower("RESTORE")) == Restore
  {
    assert ToLower("RESTORE") == "restore";
    assert |"pexpireat"| == 9 && |"expireat"| == 8 && |"restore"| == 7 && "restore"[0] == 'r' && "pexpire"[0] == 'p';
    assert |"expire"| == 6 && |"psetex"| == 6 && |"setex"| == 5 && |"set"| == 3;
  }

  lemma LongIsInjective(a: Time, b: Time, ttl: int)
    ensures Long(a + ttl) == Long(b + ttl) <==> a == b
  {
    var m := 2 * LONG_MAX + 2;
    if Long(a + ttl) == Long(b + ttl) {
      var x, y := Long(a + ttl) - (a + ttl), Long(b + ttl) - (b + ttl);
      assert x % m == 0 && y % m == 0 && x - y == b - a;
    }
  }

  lemma LongOfLong(x: int, y: int)
    ensures Long(Long(x) + y) == Long(x + y)
  {
    hide Long;
    var u, v := Long(Long(x) + y), Long(x + y);
    SumOfMultiples(u - (Long(x) + y), Long(x) - x, v - (x + y));
    assert (u - (Long(x) + y)) + (Long(x) - x) - (v - (x + y)) == u - v;
  }

  lemma SumOfMultiples(a: int, b: int, c: int)
    requires a % (2 * LONG_MAX + 2) == b % (2 * LONG_MAX + 2) == c % (2 * LONG_MAX + 2) == 0
    ensures (a + b - c) % (2 * LONG_MAX + 2) == 0
  {
  }

  /** The clock is read again for the log: a relative deadline is logged later than it was set by just the time that
      has passed in between. */
  lemma LoggedOnALaterReading(proc: Proc, text: Bytes, t: Time, t': Time)
    requires proc == Expire || proc == Pexpire
    ensures When(proc, text, t') == Long(Deadline(proc, text, t) + (t' - t))
  {
    hide StrToL;
    var ms := if proc == Expire then Long(StrToL(text) * 1000) else StrToL(text);
    LongOfLong(ms + t, t' - t);
  }
}
