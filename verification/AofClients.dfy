/** The append-only file as clients see it: the commands they gave, the dataset these left, and what a restart brings
    back of it. */
module AofClients {
  import opened Base
  import opened AofFormat
  import opened AofLoad
  import opened AofRecovery
  import opened AofReplay
  import opened AofServer
  import opened AofDurability
  import opened AofCommands
  import opened AofExpire

  /** The world of a server that loads its log at time `later`. */
  function Loading<V>(c: Commands<V>, known: Bytes -> bool, later: Time): World<Dataset<V>> {
    World((d: Dataset<V>, db: nat, cmd: Command) => Run(c, d, db, cmd, later, true), map[], known)
  }

  lemma {:induction false} PerformIsReplay<V>(c: Commands<V>, known: Bytes -> bool, later: Time, es: seq<Entry>, db: nat,
                                              cs: seq<Command>)
    ensures var w := Loading(c, known, later);
            Perform(w, es + InDb(db, cs)) == ReplayAll(c, Perform(w, es), db, cs, later)
    decreases |cs|
  {
    hide Run;
    if cs == [] {
      assert es + InDb(db, cs) == es;
    } else {
      var n := |cs| - 1;
      PerformIsReplay(c, known, later, es, db, cs[..n]);
      assert (es + InDb(db, cs))[..|es| + n] == es + InDb(db, cs[..n]);
    }
  }

  /** The commands a restart executes, if it succeeds. */
  function Read(known: Bytes -> bool, f: Bytes): Option<seq<Command>> {
    match Load(known, true, f)
    case Empty => Some([])
    case Loaded(cs) => Some(cs)
    case Truncated(cs, _) => Some(cs)
    case _ => None
  }

  /** The dataset a restart at time `later` leaves, if it succeeds. */
  function Restarted<V>(c: Commands<V>, known: Bytes -> bool, later: Time, f: Bytes): Option<Dataset<V>> {
    var r := Read(known, f);
    if r.None? then None else Some(Perform(Loading(c, known, later), Entries(0, r.value)))
  }

  // ---------------------------------------------------------------- one command

  /** The names under which the server logs. */
  ghost predicate KnowsNames(known: Bytes -> bool) {
    known("SELECT") && known("SET") && known("PEXPIREAT") && known("DEL") && known("UNLINK")
  }

  /** A command of the table, other than SELECT, as a client may send it. */
  ghost predicate Sendable(known: Bytes -> bool, argv: Command) {
    WellFormed(argv) && known(argv[0]) && !IsSelect(argv)
  }

  lemma SelectIsOther(s: Bytes)
    ensures ProcNamed(ToLower(s)) != Other ==> ToLower(s) != "select"
  {
    assert |"select"| == 6 && "select"[0] == 's' && "expire"[0] == 'e' && "psetex"[0] == 'p' && "unlink"[0] == 'u';
    assert |"pexpireat"| == 9 && |"expireat"| == 8 && |"pexpire"| == 7 && |"restore"| == 7;
    assert |"setex"| == 5 && |"set"| == 3 && |"del"| == 3;
  }

  lemma LongsAreShort()
    ensures Power10(20) > LONG_MAX + 1
  {
    assert Power10(5) == 100_000;
    assert Power10(10) == 10_000_000_000;
    assert Power10(15) == 1_000_000_000_000_000;
  }

  lemma ExpireCommandIsSendable(known: Bytes -> bool, key: Bytes, when: int)
    requires KnowsNames(known) && IsLong(when) && |key| <= LONG_MAX
    ensures Sendable(known, ExpireCommand(key, when))
  {
    hide ToLower, ProcNamed, Power10;
    var m: nat := if when < 0 then -when else when;
    LongsAreShort();
    DecimalIsShort(m, 20);
    LoweredNames();
    SelectIsOther("PEXPIREAT");
  }

  lemma TranslatedIsSendable(known: Bytes -> bool, argv: Command, now: Time)
    requires KnowsNames(known) && Sendable(known, argv) && Accepted(argv)
    ensures forall i :: 0 <= i < |Translated(argv, now)| ==> Sendable(known, Translated(argv, now)[i])
    ensures Translated(argv, now) != []
  {
    hide ToLower, ProcNamed, StrToL, Parse, ExpireCommand, Scanned, IsInteger, Long;
    forall when | IsLong(when) && |argv| >= 2
      ensures Sendable(known, ExpireCommand(argv[1], when))
    {
      ExpireCommandIsSendable(known, argv[1], when);
    }
    LoweredNames();
    SelectIsOther("SET");
    assert |argv| >= 3 ==> argv[..3][0] == argv[0];
  }

  lemma LoggedIsSendable<V>(c: Commands<V>, known: Bytes -> bool, argv: Command, now: Time)
    requires KnowsNames(known) && Sendable(known, argv) && Accepted(argv)
    ensures forall i :: 0 <= i < |Logged(c, argv, now)| ==> Sendable(known, Logged(c, argv, now)[i])
    ensures Logged(c, argv, now) != []
  {
    hide ToLower, ProcNamed, StrToL, Parse, Translated, IsInteger, Deadline;
    RewrittenIsAccepted(c, argv, now);
    LoweredNames();
    SelectIsOther("DEL");
    SelectIsOther("UNLINK");
    TranslatedIsSendable(known, Rewritten(c, argv, now), now);
  }

  lemma WholeLogReads(known: Bytes -> bool, cs: seq<Command>)
    requires WellFormedLog(cs) && AllKnown(known, cs)
    ensures Read(known, PrintLog(cs)) == Some(cs)
  {
    hide LoadFrom, PrintCommand;
    if cs != [] {
      var n := |PrintLog(cs)|;
      assert PrintLog(cs)[..n] == PrintLog(cs);
      StartsWithStar(cs);
      CutLogLoads(known, cs, n);
      AllAreWhole(cs);
      assert cs[..|cs|] == cs;
    }
  }

  /** Feeding a command and loading the log: whatever log the text of feedAppendOnlyFile is appended to, loading it
      leaves the dataset of that log with the command executed on it, in its database and at the time it ran. */
  lemma FedTextExecutes<V>(c: Commands<V>, known: Bytes -> bool, log: seq<Command>, selected: Option<nat>, db: nat,
                           argv: Command, now: Time, later: Time)
    requires KnowsNames(known) && WellFormedLog(log) && AllKnown(known, log)
    requires selected.Some? ==> selected.value == DbAfterAll(0, log)
    requires db <= INT_MAX && Sendable(known, argv) && !Trips(argv)
    requires Takes(c, Perform(Loading(c, known, later), Entries(0, log)), db, argv)
    ensures var before := Perform(Loading(c, known, later), Entries(0, log));
            var f := PrintLog(log) + PrintLog(Fed(selected, db, Logged(c, argv, now)));
            && Restarted(c, known, later, f).Some?
            && (Restarted(c, known, later, f).value == Run(c, before, db, argv, now, false)
                <==> !Relative(argv) || later == now)
  {
    hide Run, Trips, PrintLog, Read, Perform, Entries, Fed, Logged, DbAfterAll, Accepted, Relative;
    var w, logged := Loading(c, known, later), Logged(c, argv, now);
    var fed := Fed(selected, db, logged);
    LoggedIsSendable(c, known, argv, now);
    FedIsLoggable(w, selected, db, logged);
    LoggableConcat(w, log, fed);
    PrintLogConcat(log, fed);
    WholeLogReads(known, log + fed);
    AppendKeepsStep(0, log, Entries(0, log), selected, db, logged);
    PerformIsReplay(c, known, later, Entries(0, log), db, logged);
    LoggedReplays(c, Perform(w, Entries(0, log)), db, argv, now, later);
  }

  // ---------------------------------------------------------------- what was given, and what is left of it

  /** A command that changed something; or, after a crash, the SET that is left of one that was logged as two. */
  datatype Deed = Done(db: nat, argv: Command, now: Time) | Torn(db: nat, first: Command)

  function After<V>(c: Commands<V>, before: Dataset<V>, deed: Deed): Dataset<V> {
    match deed
    case Done(db, argv, now) => Run(c, before, db, argv, now, false)
    case Torn(db, first) => Run(c, before, db, first, 0, true)
  }

  /** The dataset after the deeds. */
  function Lived<V>(c: Commands<V>, deeds: seq<Deed>): Dataset<V> {
    if deeds == [] then map[] else After(c, Lived(c, deeds[..|deeds| - 1]), deeds[|deeds| - 1])
  }

  ghost predicate DeedOk<V>(c: Commands<V>, before: Dataset<V>, deed: Deed) {
    match deed
    case Done(db, argv, _) => Takes(c, before, db, argv) && !Trips(argv) && !Relative(argv)
    case Torn(db, first) => ProcOf(first) == Set && |first| == 3
  }

  ghost predicate DeedsOk<V>(c: Commands<V>, deeds: seq<Deed>) {
    forall i :: 0 <= i < |deeds| ==> DeedOk(c, Lived(c, deeds[..i]), deeds[i])
  }

  function LoggedFor<V>(c: Commands<V>, deed: Deed): (cs: seq<Command>) {
    match deed
    case Done(_, argv, now) => if Accepted(argv) then Logged(c, argv, now) else []
    case Torn(_, first) => [first]
  }

  function EntriesFor<V>(c: Commands<V>, deeds: seq<Deed>): seq<Entry> {
    if deeds == [] then [] else
    var last := deeds[|deeds| - 1];
    EntriesFor(c, deeds[..|deeds| - 1]) + InDb(last.db, LoggedFor(c, last))
  }

  lemma SplitLast<V>(c: Commands<V>, deeds: seq<Deed>, deed: Deed)
    ensures EntriesFor(c, deeds + [deed]) == EntriesFor(c, deeds) + InDb(deed.db, LoggedFor(c, deed))
    ensures Lived(c, deeds + [deed]) == After(c, Lived(c, deeds), deed)
  {
    hide After, LoggedFor;
    assert (deeds + [deed])[..|deeds|] == deeds;
  }

  lemma DeedsOkPrefix<V>(c: Commands<V>, deeds: seq<Deed>, k: nat)
    requires DeedsOk(c, deeds) && k <= |deeds|
    ensures DeedsOk(c, deeds[..k])
  {
    hide Lived, DeedOk;
    forall i | 0 <= i < k
      ensures DeedOk(c, Lived(c, deeds[..k][..i]), deeds[..k][i])
    {
      assert deeds[..k][..i] == deeds[..i];
    }
  }

  lemma DeedsOkAppend<V>(c: Commands<V>, deeds: seq<Deed>, deed: Deed)
    requires DeedsOk(c, deeds) && DeedOk(c, Lived(c, deeds), deed)
    ensures DeedsOk(c, deeds + [deed])
  {
    hide Lived, DeedOk;
    var all := deeds + [deed];
    forall i | 0 <= i < |all|
      ensures DeedOk(c, Lived(c, all[..i]), all[i])
    {
      assert all[..i] == deeds[..i];
      assert deeds[..|deeds|] == deeds;
    }
  }

  lemma DeedReplays<V>(c: Commands<V>, before: Dataset<V>, deed: Deed, later: Time)
    requires DeedOk(c, before, deed)
    ensures ReplayAll(c, before, deed.db, LoggedFor(c, deed), later) == After(c, before, deed)
  {
    hide Run, Logged, ReplayAll, ProcOf, Trips, Accepted;
    match deed
    case Done(db, argv, now) => LoggedReplays(c, before, db, argv, now, later);
    case Torn(db, first) =>
      ReplayOne(c, before, db, first, later);
      SetReplays(c, before, db, first, later);
      SetReplays(c, before, db, first, 0);
  }

  /** Replaying what the deeds left in the log leaves the dataset they left. */
  lemma {:induction false} DeedsReplay<V>(c: Commands<V>, known: Bytes -> bool, later: Time, deeds: seq<Deed>)
    requires DeedsOk(c, deeds)
    ensures Perform(Loading(c, known, later), EntriesFor(c, deeds)) == Lived(c, deeds)
    decreases |deeds|
  {
    hide After, DeedOk, LoggedFor;
    if deeds != [] {
      var n := |deeds| - 1;
      var last := deeds[n];
      DeedsOkPrefix(c, deeds, n);
      DeedsReplay(c, known, later, deeds[..n]);
      PerformIsReplay(c, known, later, EntriesFor(c, deeds[..n]), last.db, LoggedFor(c, last));
      DeedReplays(c, Lived(c, deeds[..n]), last, later);
    }
  }

  /** The commands that are logged as two: a value with a deadline. */
  predicate Halves(deed: Deed) {
    && deed.Done?
    && match ProcOf(deed.argv)
       case Setex | Psetex => |deed.argv| == 4
       case Set => |deed.argv| >= 3 && var o := Parse(deed.argv[3..], NO_OPTIONS); o.Options? && o.unit.Some?
       case _ => false
  }

  /** The first of the two. */
  function FirstHalf(deed: Deed): Command
    requires Halves(deed)
  {
    if ProcOf(deed.argv) == Set then deed.argv[..3] else ["SET", deed.argv[1], deed.argv[3]]
  }

  lemma LoggedForShape<V>(c: Commands<V>, before: Dataset<V>, deed: Deed)
    requires DeedOk(c, before, deed)
    ensures |LoggedFor(c, deed)| == if Halves(deed) then 2 else 1
    ensures Halves(deed) ==> && LoggedFor(c, deed)[0] == FirstHalf(deed)
                             && ProcOf(FirstHalf(deed)) == Set && |FirstHalf(deed)| == 3
  {
    hide ToLower, ProcNamed, StrToL, Parse, Scanned, IsInteger, ExpireCommand, Deadline, When;
    LoweredNames();
    if deed.Done? {
      RewrittenIsAccepted(c, deed.argv, deed.now);
      if ProcOf(deed.argv) == Set {
        SetTranslates(deed.argv, deed.now);
      }
    }
  }

  /** How many deeds have all their commands among the first `m` of the log. */
  function Count<V>(c: Commands<V>, deeds: seq<Deed>, m: nat): (k: nat)
    ensures k <= |deeds|
  {
    if deeds == [] || |EntriesFor(c, deeds)| <= m then |deeds| else Count(c, deeds[..|deeds| - 1], m)
  }

  /** What is left of the deeds when the first `m` logged commands survive. */
  function CutTo<V>(c: Commands<V>, deeds: seq<Deed>, m: nat): seq<Deed> {
    var k := Count(c, deeds, m);
    if k < |deeds| && |EntriesFor(c, deeds[..k])| < m && Halves(deeds[k])
    then deeds[..k] + [Torn(deeds[k].db, FirstHalf(deeds[k]))]
    else deeds[..k]
  }

  lemma {:induction false} EntriesForPrefix<V>(c: Commands<V>, deeds: seq<Deed>, k: nat)
    requires k <= |deeds|
    ensures EntriesFor(c, deeds[..k]) <= EntriesFor(c, deeds)
    decreases |deeds|
  {
    hide LoggedFor;
    if k == |deeds| {
      assert deeds[..k] == deeds;
    } else {
      var n := |deeds| - 1;
      EntriesForPrefix(c, deeds[..n], k);
      assert deeds[..n][..k] == deeds[..k];
    }
  }

  lemma NoEntries<V>(c: Commands<V>, deeds: seq<Deed>)
    ensures deeds == [] ==> EntriesFor(c, deeds) == []
  {
  }

  lemma {:induction false} CountFits<V>(c: Commands<V>, deeds: seq<Deed>, m: nat)
    ensures var k := Count(c, deeds, m);
            && |EntriesFor(c, deeds[..k])| <= m
            && (k < |deeds| ==> m < |EntriesFor(c, deeds[..k + 1])|)
    decreases |deeds|
  {
    hide EntriesFor;
    var k, n := Count(c, deeds, m), |deeds| - 1;
    if k == |deeds| {
      assert deeds[..k] == deeds;
      NoEntries(c, deeds);
    } else {
      CountFits(c, deeds[..n], m);
      assert deeds[..n][..k] == deeds[..k];
      if k < n {
        assert deeds[..n][..k + 1] == deeds[..k + 1];
      } else {
        assert deeds[..k + 1] == deeds;
      }
    }
  }

  /** The deeds that are left are those whose commands are. */
  lemma CutToCuts<V>(c: Commands<V>, deeds: seq<Deed>, m: nat)
    requires DeedsOk(c, deeds) && m <= |EntriesFor(c, deeds)|
    ensures EntriesFor(c, CutTo(c, deeds, m)) == EntriesFor(c, deeds)[..m] && DeedsOk(c, CutTo(c, deeds, m))
    ensures Survives(c, deeds, CutTo(c, deeds, m), Count(c, deeds, m))
  {
    hide Lived, LoggedFor, DeedOk, Halves, FirstHalf;
    var k := Count(c, deeds, m);
    CountFits(c, deeds, m);
    EntriesForPrefix(c, deeds, k);
    DeedsOkPrefix(c, deeds, k);
    assert deeds[..|deeds|] == deeds;
    if |EntriesFor(c, deeds[..k])| < m {
      EntriesForPrefix(c, deeds, k + 1);
      CutInside(c, deeds, m, k);
    }
  }

  lemma CutInside<V>(c: Commands<V>, deeds: seq<Deed>, m: nat, k: nat)
    requires DeedsOk(c, deeds) && k < |deeds| && EntriesFor(c, deeds[..k + 1]) <= EntriesFor(c, deeds)
    requires |EntriesFor(c, deeds[..k])| < m < |EntriesFor(c, deeds[..k + 1])|
    ensures Halves(deeds[k])
    ensures var left := deeds[..k] + [Torn(deeds[k].db, FirstHalf(deeds[k]))];
            EntriesFor(c, left) == EntriesFor(c, deeds)[..m] && DeedsOk(c, left)
  {
    hide Lived, Halves, FirstHalf, LoggedFor, EntriesFor;
    var deed := deeds[k];
    assert deeds[..k + 1] == deeds[..k] + [deed];
    SplitLast(c, deeds[..k], deed);
    LoggedForShape(c, Lived(c, deeds[..k]), deed);
    var torn := Torn(deed.db, FirstHalf(deed));
    DeedsOkPrefix(c, deeds, k);
    DeedsOkAppend(c, deeds[..k], torn);
    SplitLast(c, deeds[..k], torn);
    assert LoggedFor(c, torn) == [FirstHalf(deed)] by { TornLogs(c, torn); }
    assert InDb(deed.db, [FirstHalf(deed)]) == InDb(deed.db, LoggedFor(c, deed))[..1];
  }

  lemma TornLogs<V>(c: Commands<V>, deed: Deed)
    ensures deed.Torn? ==> LoggedFor(c, deed) == [deed.first]
  {
  }

  /** The first `k` deeds are left, and perhaps the SET of the next. */
  ghost predicate Survives<V>(c: Commands<V>, deeds: seq<Deed>, left: seq<Deed>, k: nat) {
    && k <= |deeds|
    && (left == deeds[..k]
        || (k < |deeds| && Halves(deeds[k]) && left == deeds[..k] + [Torn(deeds[k].db, FirstHalf(deeds[k]))]))
  }

  /** The deeds behind `m` commands include those behind fewer. */
  lemma CountGrows<V>(c: Commands<V>, deeds: seq<Deed>, m: nat, safe: nat)
    requires safe <= |deeds| && |EntriesFor(c, deeds[..safe])| <= m
    ensures safe <= Count(c, deeds, m)
  {
    hide EntriesFor;
    var k := Count(c, deeds, m);
    CountFits(c, deeds, m);
    if k < safe {
      assert deeds[..safe][..k + 1] == deeds[..k + 1];
      EntriesForPrefix(c, deeds[..safe], k + 1);
    }
  }

  // ---------------------------------------------------------------- every run

  /** The server, its dataset, the deeds behind the dataset, and how many of them there were when everything executed
      was last on disk. */
  datatype Session<!V> = Session(s: State, h: History, live: Dataset<V>, deeds: seq<Deed>, safe: nat)

  /** A command at a time, or a step of the server at a time; only a restart looks at the clock. */
  datatype ClientEvent = Give(db: nat, argv: Command, now: Time) | Server(e: Event, at: Time)

  /** A SET that fails the assertion of feedAppendOnlyFile stops the server, which is a crash. An image replays to the
      dataset at the fork whatever the clock says. */
  ghost predicate SessionEnabled<V(!new)>(c: Commands<V>, known: Bytes -> bool, x: Session<V>, ev: ClientEvent) {
    match ev
    case Give(db, argv, _) => db <= INT_MAX && Sendable(known, argv) && !Trips(argv)
    case Server(e, _) => !e.Execute? && forall t: Time :: Enabled(Loading(c, known, t), x.s, x.h, e)
  }

  /** A command that changes nothing is not logged; one that does is executed and fed. */
  ghost function Gave<V>(c: Commands<V>, known: Bytes -> bool, x: Session<V>, db: nat, argv: Command, now: Time): Session<V>
  {
    if !Takes(c, x.live, db, argv) then x else
    var e := Execute(db, Logged(c, argv, now));
    Session(Step(Loading(c, known, now), x.s, e), Record(x.s, x.h, e),
            Run(c, x.live, db, argv, now, false), x.deeds + [Done(db, argv, now)], x.safe)
  }

  /** A restart has the dataset of the log, and the deeds whose commands survived. */
  ghost function Served<V>(c: Commands<V>, known: Bytes -> bool, x: Session<V>, e: Event, at: Time): Session<V> {
    var s', h' := Step(Loading(c, known, at), x.s, e), Record(x.s, x.h, e);
    var live' := if e.Crash? && Restarted(c, known, at, x.s.file).Some? then Restarted(c, known, at, x.s.file).value
                 else x.live;
    var deeds' := if e.Crash? then CutTo(c, x.deeds, |h'.done|) else x.deeds;
    Session(s', h', live', deeds', if h'.start == |h'.done| then |deeds'| else x.safe)
  }

  ghost function SessionStep<V>(c: Commands<V>, known: Bytes -> bool, x: Session<V>, ev: ClientEvent): Session<V> {
    match ev
    case Give(db, argv, now) => Gave(c, known, x, db, argv, now)
    case Server(e, at) => Served(c, known, x, e, at)
  }

  ghost predicate SessionRuns<V(!new)>(c: Commands<V>, known: Bytes -> bool, x0: Session<V>,
                                       run: seq<ClientEvent>, x: Session<V>)
    decreases |run|
  {
    if run == [] then x == x0
    else SessionEnabled(c, known, x0, run[0])
         && SessionRuns(c, known, SessionStep(c, known, x0, run[0]), run[1..], x)
  }

  ghost function Fresh<V>(): Session<V> {
    Session(INITIAL, NO_HISTORY, map[], [], 0)
  }

  /** No client restores a value with a time to live. */
  ghost predicate NoRelative(run: seq<ClientEvent>) {
    forall i :: 0 <= i < |run| && run[i].Give? ==> !Relative(run[i].argv)
  }

  ghost predicate SessionOk<V>(c: Commands<V>, known: Bytes -> bool, x: Session<V>) {
    && (forall t: Time :: Inv(Loading(c, known, t), x.s, x.h))
    && DeedsOk(c, x.deeds) && x.live == Lived(c, x.deeds) && x.h.done == EntriesFor(c, x.deeds)
    && x.safe <= |x.deeds| && |EntriesFor(c, x.deeds[..x.safe])| <= x.h.start
  }

  /** The clock of the loader plays no part in a step. */
  lemma StepSame<V>(c: Commands<V>, known: Bytes -> bool, t: Time, t': Time, s: State, e: Event)
    ensures Step(Loading(c, known, t), s, e) == Step(Loading(c, known, t'), s, e)
  {
    hide PrintLog, Load, Fed, Flushed;
  }

  lemma StepKeepsInvAtAll<V(!new)>(c: Commands<V>, known: Bytes -> bool, at: Time, s: State, h: History, e: Event)
    requires forall t: Time :: Inv(Loading(c, known, t), s, h) && Enabled(Loading(c, known, t), s, h, e)
    ensures forall t: Time :: Inv(Loading(c, known, t), Step(Loading(c, known, at), s, e), Record(s, h, e))
  {
    hide Inv, Enabled, Step, Record, Loading;
    forall t: Time
      ensures Inv(Loading(c, known, t), Step(Loading(c, known, at), s, e), Record(s, h, e))
    {
      StepKeepsInv(Loading(c, known, t), s, h, e);
      StepSame(c, known, t, at, s, e);
    }
  }

  lemma GiveKeepsOk<V(!new)>(c: Commands<V>, known: Bytes -> bool, x: Session<V>, db: nat, argv: Command, now: Time)
    requires KnowsNames(known) && SessionOk(c, known, x) && !Relative(argv)
    requires SessionEnabled(c, known, x, Give(db, argv, now))
    ensures SessionOk(c, known, Gave(c, known, x, db, argv, now))
  {
    hide Inv, Lived, EntriesFor, DeedsOk, Logged, Step, Run, Accepted, Trips, Relative;
    if Takes(c, x.live, db, argv) {
      var deed, e := Done(db, argv, now), Execute(db, Logged(c, argv, now));
      LoggedIsSendable(c, known, argv, now);
      assert forall t: Time :: Enabled(Loading(c, known, t), x.s, x.h, e);
      StepKeepsInvAtAll(c, known, now, x.s, x.h, e);
      SplitLast(c, x.deeds, deed);
      DeedsOkAppend(c, x.deeds, deed);
      assert (x.deeds + [deed])[..x.safe] == x.deeds[..x.safe];
    }
  }

  lemma StartStays(s: State, h: History, e: Event)
    requires !e.Execute? && !e.Crash?
    ensures Record(s, h, e).done == h.done
    ensures Record(s, h, e).start == h.start || Record(s, h, e).start == |h.done|
  {
  }

  /** A restart brings back the dataset of the deeds that survive, and these are the first ones. */
  lemma RestartLives<V(!new)>(c: Commands<V>, known: Bytes -> bool, later: Time, x: Session<V>)
    requires SessionOk(c, known, x) && x.s.mode == On
    ensures LogOk(Loading(c, known, later), x.s, x.h) && x.h.base <= Kept(x.s, x.h) && Recovered(x.s, x.h) <= |x.h.done|
    ensures var left := CutTo(c, x.deeds, Recovered(x.s, x.h));
            && Restarted(c, known, later, x.s.file) == Some(Lived(c, left))
            && DeedsOk(c, left) && EntriesFor(c, left) == x.h.done[..Recovered(x.s, x.h)]
            && Survives(c, x.deeds, left, Count(c, x.deeds, Recovered(x.s, x.h)))
            && x.safe <= Count(c, x.deeds, Recovered(x.s, x.h))
            && (x.s.buf == [] ==> left == x.deeds)
  {
    hide Lived, EntriesFor, DeedsOk, Load, Perform, PrintLog, Entries, DbAfterAll, CutTo, Count, Survives;
    var w := Loading(c, known, later);
    KeptReplays(w, x.s, x.h);
    RestartLoads(w, x.s, x.h);
    var m := Recovered(x.s, x.h);
    CutToCuts(c, x.deeds, m);
    DeedsReplay(c, known, later, CutTo(c, x.deeds, m));
    CountGrows(c, x.deeds, m, x.safe);
    ReadIsKept(c, known, later, x.s, x.h);
    if x.s.buf == [] {
      CutToAll(c, x.deeds);
    }
  }

  lemma ReadIsKept<V>(c: Commands<V>, known: Bytes -> bool, later: Time, s: State, h: History)
    requires LogOk(Loading(c, known, later), s, h)
    ensures Read(known, s.file) == Some(h.log[..Kept(s, h)])
  {
    hide Load, Perform, PrintLog, Entries, DbAfterAll;
    RestartLoads(Loading(c, known, later), s, h);
  }

  lemma CutToAll<V>(c: Commands<V>, deeds: seq<Deed>)
    ensures CutTo(c, deeds, |EntriesFor(c, deeds)|) == deeds
  {
    hide EntriesFor;
    assert deeds[..|deeds|] == deeds;
  }

  lemma ServerKeepsOk<V(!new)>(c: Commands<V>, known: Bytes -> bool, x: Session<V>, e: Event, at: Time)
    requires SessionOk(c, known, x) && SessionEnabled(c, known, x, Server(e, at))
    ensures SessionOk(c, known, Served(c, known, x, e, at))
  {
    hide Inv, Lived, EntriesFor, DeedsOk, Step, CutTo, Restarted, Count, Survives;
    StepKeepsInvAtAll(c, known, at, x.s, x.h, e);
    var x' := Served(c, known, x, e, at);
    if e.Crash? {
      assert Enabled(Loading(c, known, at), x.s, x.h, e);
      RestartLives(c, known, at, x);
      var m := Recovered(x.s, x.h);
      assert x'.h.done == x.h.done[..m] && x'.h.start == m;
    } else {
      hide Record;
      StartStays(x.s, x.h, e);
    }
    assert x'.deeds[..|x'.deeds|] == x'.deeds;
  }

  lemma {:induction false} SessionStaysOk<V(!new)>(c: Commands<V>, known: Bytes -> bool, x0: Session<V>,
                                                   run: seq<ClientEvent>, x: Session<V>)
    requires KnowsNames(known) && SessionOk(c, known, x0) && SessionRuns(c, known, x0, run, x) && NoRelative(run)
    ensures SessionOk(c, known, x)
    decreases |run|
  {
    hide SessionOk, SessionEnabled, Gave, Served, Relative;
    if run != [] {
      match run[0] {
        case Give(db, argv, now) => GiveKeepsOk(c, known, x0, db, argv, now);
        case Server(e, at) => ServerKeepsOk(c, known, x0, e, at);
      }
      SessionStaysOk(c, known, SessionStep(c, known, x0, run[0]), run[1..], x);
    }
  }

  /** Durability for clients: in every run in which nobody restores a value with a time to live, the dataset is the one
      that the commands given left, in the order they were given, and with the log on a restart at any moment brings
      back the dataset of the first of them: all that were given before everything was last on disk, and all at all
      when the buffer is empty. Only a value whose deadline was given with it may come back without the deadline. */
  lemma ClientsRecover<V(!new)>(c: Commands<V>, known: Bytes -> bool, later: Time, run: seq<ClientEvent>, x: Session<V>)
    requires KnowsNames(known) && SessionRuns(c, known, Fresh(), run, x) && NoRelative(run)
    ensures x.live == Lived(c, x.deeds)
    ensures x.s.mode == On ==>
              exists k: nat, left ::
                && x.safe <= k && Survives(c, x.deeds, left, k)
                && Restarted(c, known, later, x.s.file) == Some(Lived(c, left))
                && (x.s.buf == [] ==> left == x.deeds)
                && ((forall i :: x.safe <= i < |x.deeds| ==> !Halves(x.deeds[i])) ==> left == x.deeds[..k])
  {
    hide SessionRuns, Restarted, CutTo, Count, Loading, Halves;
    FreshIsOk(c, known);
    SessionStaysOk(c, known, Fresh(), run, x);
    if x.s.mode == On {
      RestartLives(c, known, later, x);
    }
  }

  lemma FreshIsOk<V>(c: Commands<V>, known: Bytes -> bool)
    requires KnowsNames(known)
    ensures SessionOk<V>(c, known, Fresh())
  {
  }

  // ---------------------------------------------------------------- a deadline that is lost

  lemma HalvedRuns<V>(c: Commands<V>, before: Dataset<V>, deed: Deed)
    requires DeedOk(c, before, deed) && Halves(deed)
    ensures var p, text := Place(deed.db, deed.argv[1]), c.text(FirstHalf(deed)[2]);
            && After(c, before, Torn(deed.db, FirstHalf(deed))) == before[p := Item(text, None)]
            && p in After(c, before, deed)
            && After(c, before, deed)[p].value == text && After(c, before, deed)[p].deadline.Some?
  {
    hide ToLower, ProcNamed, StrToL, Parse, IsInteger, Long, Translated;
    LoggedForShape(c, before, deed);
    SetReplays(c, before, deed.db, FirstHalf(deed), 0);
  }

  /** What is left of a value with a deadline when the log was cut between the two: the value, for good. It is never
      what the command left, and what was there before only if that was the same value without a deadline. */
  lemma TornExactly<V>(c: Commands<V>, deeds: seq<Deed>, k: nat)
    requires DeedsOk(c, deeds) && k < |deeds| && Halves(deeds[k])
    ensures var deed, before := deeds[k], Lived(c, deeds[..k]);
            var p, item := Place(deed.db, deed.argv[1]), Item(c.text(FirstHalf(deed)[2]), None);
            var left := deeds[..k] + [Torn(deed.db, FirstHalf(deed))];
            && Lived(c, left) == before[p := item]
            && Lived(c, left) != Lived(c, deeds[..k + 1])
            && (Lived(c, left) == before <==> p in before && before[p] == item)
  {
    hide Lived, After, ProcOf, Parse, DeedOk, EntriesFor, LoggedFor;
    var deed, before := deeds[k], Lived(c, deeds[..k]);
    SplitLast(c, deeds[..k], deed);
    SplitLast(c, deeds[..k], Torn(deed.db, FirstHalf(deed)));
    assert deeds[..k + 1] == deeds[..k] + [deed];
    HalvedRuns(c, before, deed);
    var p, item := Place(deed.db, deed.argv[1]), Item(c.text(FirstHalf(deed)[2]), None);
    SameItem(before, p, item);
  }

  lemma SameItem<V>(d: Dataset<V>, p: Place, item: Item<V>)
    ensures d[p := item] == d <==> p in d && d[p] == item
  {
    assert d[p := item][p] == item;
  }

  const SETEX: Command := ["SETEX", "k", "10", "v"]
  const HALF: Command := ["SET", "k", "v"]
  const DEADLINE: Command := ["PEXPIREAT", "k", "10000"]

  lemma SetexNames()
    ensures ProcOf(SETEX) == Setex && ProcOf(HALF) == Set && !IsSelect(SETEX)
  {
    assert ToLower("SETEX") == "setex";
    assert |"pexpireat"| == 9 && |"expireat"| == 8 && |"pexpire"| == 7 && |"expire"| == 6 && |"setex"| == 5;
    assert |"select"| == 6;
    LoweredNames();
  }

  lemma SetexNumbers()
    ensures PositiveTime("10") && StrToL("10") == 10 && SignedDecimal(10000) == "10000"
  {
    assert Decimal(10) == "10" by { assert Decimal(1) == "1"; }
    assert Decimal(10000) == "10000" by {
      assert Decimal(100) == "100";
      assert Decimal(1000) == "1000";
    }
    SignedReads(10);
  }

  lemma SetexIsTwo<V>(c: Commands<V>, d: Dataset<V>)
    ensures ProcOf(SETEX) == Setex && Takes(c, d, 0, SETEX) && Logged(c, SETEX, 0) == [HALF, DEADLINE]
    ensures ProcOf(HALF) == Set && !IsSelect(SETEX)
  {
    hide ProcOf, IsSelect, PositiveTime, StrToL, SignedDecimal;
    SetexNames();
    SetexNumbers();
  }

  /** The first bytes of the log: SELECT and SET, or all of it. */
  lemma SetexText()
    ensures var text := PrintLog([Select(0), HALF, DEADLINE]); var n := |PrintLog([Select(0), HALF])|;
            0 < n < |text| && text[..n] == PrintLog([Select(0), HALF])
  {
    hide PrintCommand;
    var a, b := [Select(0), HALF], [DEADLINE];
    assert a + b == [Select(0), HALF, DEADLINE];
    PrintLogConcat(a, b);
    StartsWithStar(a);
    StartsWithStar(b);
  }

  lemma HalfLoads<V>(c: Commands<V>, known: Bytes -> bool, later: Time)
    requires KnowsNames(known)
    ensures Restarted(c, known, later, PrintLog([Select(0), HALF])) == Some(map[Place(0, "k") := Item(c.text("v"), None)])
  {
    hide PrintLog, Run, Read, ProcOf, IsSelect, DbAfter;
    var cs, w := [Select(0), HALF], Loading(c, known, later);
    SelectIsLoggable(0);
    WholeLogReads(known, cs);
    SetexIsTwo(c, map[]);
    NotSelect();
    FedReplays(None, 0, 0, [HALF]);
    assert Fed(None, 0, [HALF]) == cs;
    PerformIsReplay(c, known, later, [], 0, [HALF]);
    assert [] + InDb(0, [HALF]) == InDb(0, [HALF]);
    ReplayOne(c, map[], 0, HALF, later);
    SetReplays(c, map[], 0, HALF, later);
    assert Perform(w, []) == map[];
  }

  lemma NotSelect()
    ensures !IsSelect(HALF)
  {
    assert ToLower("SET") == "set" && |"set"| == 3 && |"select"| == 6;
  }

  lemma SetexLives<V>(c: Commands<V>)
    ensures Lived(c, [Done(0, SETEX, 0)]) == map[Place(0, "k") := Item(c.text("v"), Some(10000))]
  {
    hide ProcOf, Takes, IsInteger, StrToL;
    SetexIsTwo(c, map[]);
    SetexRuns(c, map[], 0, SETEX, 0);
    SetexNumbers();
    assert [Done(0, SETEX, 0)][..0] == [];
  }

  lemma TwoSteps<V(!new)>(c: Commands<V>, known: Bytes -> bool, x: Session<V>, a: ClientEvent, b: ClientEvent)
    requires SessionEnabled(c, known, x, a)
    requires SessionEnabled(c, known, SessionStep(c, known, x, a), b)
    ensures SessionRuns(c, known, x, [a, b], SessionStep(c, known, SessionStep(c, known, x, a), b))
  {
    hide SessionStep, SessionEnabled;
    var x' := SessionStep(c, known, x, a);
    var x'' := SessionStep(c, known, x', b);
    assert [a, b][1..] == [b] && [b][1..] == [];
    assert SessionRuns(c, known, x'', [], x'');
    assert SessionRuns(c, known, x', [b], x'');
  }

  /** A run that loses a deadline: of SETEX k 10 v only the first bytes are written, as many as the SET takes. A restart
      then finds k without a deadline, a dataset that there never was. */
  lemma DeadlineIsLost<V(!new)>(c: Commands<V>, known: Bytes -> bool, later: Time)
    requires KnowsNames(known) && known("SETEX")
    ensures exists run: seq<ClientEvent>, x: Session<V> ::
              && SessionRuns(c, known, Fresh(), run, x) && x.s.mode == On
              && x.deeds == [Done(0, SETEX, 0)]
              && Restarted(c, known, later, x.s.file) == Some(map[Place(0, "k") := Item(c.text("v"), None)])
              && Lived(c, x.deeds) == map[Place(0, "k") := Item(c.text("v"), Some(10000))]
  {
    hide PrintLog, Restarted, Lived, Takes, ProcOf, IsSelect, Load, Logged, Run;
    var n := |PrintLog([Select(0), HALF])|;
    var give, flush := Give(0, SETEX, 0), Server(Flush(Partial(n, false)), later);
    var x1 := SessionStep<V>(c, known, Fresh(), give);
    var x2 := SessionStep(c, known, x1, flush);
    SetexIsTwo<V>(c, map[]);
    SetexText();
    assert Fed(None, 0, [HALF, DEADLINE]) == [Select(0), HALF, DEADLINE];
    var text := PrintLog([Select(0), HALF, DEADLINE]);
    assert x1.s.buf == text by { assert [] + text == text; }
    assert x2.s.file == PrintLog([Select(0), HALF]) by { assert [] + text[..n] == text[..n]; }
    HalfLoads(c, known, later);
    SetexLives(c);
    assert [] + [Done(0, SETEX, 0)] == [Done(0, SETEX, 0)];
    assert SessionEnabled(c, known, Fresh(), give) && SessionEnabled(c, known, x1, flush);
    TwoSteps<V>(c, known, Fresh(), give, flush);
  }
}
