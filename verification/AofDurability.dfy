/** The invariant of the append-only file over every run, and what it means for recovery. */
module AofDurability {

  import opened Base
  import opened AofFormat
  import opened AofLoad
  import opened AofRecovery
  import opened AofReplay
  import opened AofServer

  /** With the log on: file and buffer are the log, the size is right, what is on disk for sure replays to the
      dataset it stands for, the rest of the log is the rest of what was executed, command by command in its own
      database, and aof_selected_db is where the log ends. */
  ghost predicate LogOk<S>(w: World<S>, s: State, h: History) {
    && s.file + s.buf == PrintLog(h.log) && s.size == |s.file|
    && Loggable(w, h.log)
    && h.base <= |h.log| && |PrintLog(h.log[..h.base])| <= |s.file|
    && h.start <= |h.done|
    && Perform(w, Entries(0, h.log[..h.base])) == Perform(w, h.done[..h.start])
    && Entries(DbAfterAll(0, h.log[..h.base]), h.log[h.base..]) == h.done[h.start..]
    && (s.selected.Some? ==> DbAfterAll(0, h.log) == s.selected.value)
  }

  /** With a rewrite under way: what the child has read, the pipe and the blocks are the text of what was executed
      since the fork, in the databases it ran in, and aof_selected_db is where that ends too. */
  ghost predicate RewriteOk<S>(w: World<S>, s: State, h: History)
    requires s.child.Some?
  {
    && s.child.value.image == PrintLog(h.image)
    && s.child.value.diff + s.pipes.data + s.blocks == PrintLog(h.diff)
    && Loggable(w, h.image) && Loggable(w, h.diff)
    && h.forked <= |h.done|
    && Perform(w, Entries(0, h.image)) == Perform(w, h.done[..h.forked])
    && Entries(DbAfterAll(0, h.image), h.diff) == h.done[h.forked..]
    && (s.selected.Some? ==> DbAfterAll(DbAfterAll(0, h.image), h.diff) == s.selected.value)
  }

  /** Nothing is sent after the stop, so a finished child has read everything that ever will be. */
  ghost predicate PipesOk(s: State) {
    && (s.child.None? ==> s.blocks == [])
    && (s.child.Some? ==> (s.pipes.ack ==> s.pipes.stop) && (s.child.value.finished ==> s.pipes.stop && s.pipes.data == []))
  }

  ghost predicate Inv<S>(w: World<S>, s: State, h: History) {
    && w.known("SELECT") && PipesOk(s)
    && (s.mode == On ==> LogOk(w, s, h))
    && (s.child.Some? && s.mode != Off ==> RewriteOk(w, s, h))
  }

  // ----- text and replay -----

  lemma SelectIsLoggable(db: nat)
    requires db <= INT_MAX
    ensures WellFormed(Select(db))
  {
    assert Power10(10) == 10_000_000_000 by {
      assert Power10(5) == 100_000;
    }
    DecimalIsShort(db, 10);
  }

  lemma FedIsLoggable<S>(w: World<S>, selected: Option<nat>, db: nat, cmds: seq<Command>)
    requires w.known("SELECT") && db <= INT_MAX && Loggable(w, cmds)
    ensures Loggable(w, Fed(selected, db, cmds))
  {
    SelectIsLoggable(db);
  }

  lemma LoggableConcat<S>(w: World<S>, a: seq<Command>, b: seq<Command>)
    requires Loggable(w, a) && Loggable(w, b)
    ensures Loggable(w, a + b)
  {
  }

  /** Appending fed commands to a log in step with what was executed keeps it in step. */
  lemma AppendKeepsStep(cur: nat, log: seq<Command>, done: seq<Entry>, selected: Option<nat>, db: nat, cmds: seq<Command>)
    requires Entries(cur, log) == done
    requires selected.Some? ==> DbAfterAll(cur, log) == selected.value
    requires forall i :: 0 <= i < |cmds| ==> !IsSelect(cmds[i])
    ensures Entries(cur, log + Fed(selected, db, cmds)) == done + InDb(db, cmds)
    ensures DbAfterAll(cur, log + Fed(selected, db, cmds)) == db
  {
    EntriesConcat(cur, log, Fed(selected, db, cmds));
    FedReplays(selected, DbAfterAll(cur, log), db, cmds);
  }

  /** A replayed beginning and a replayed rest make a replayed whole. */
  lemma JoinReplays<S>(w: World<S>, a: seq<Command>, b: seq<Command>, da: seq<Entry>, d: seq<Entry>)
    requires Perform(w, Entries(0, a)) == Perform(w, da)
    requires Entries(DbAfterAll(0, a), b) == d
    ensures Perform(w, Entries(0, a + b)) == Perform(w, da + d)
    ensures DbAfterAll(0, a + b) == DbAfterAll(DbAfterAll(0, a), b)
  {
    EntriesConcat(0, a, b);
    PerformAfter(w, Entries(0, a), da, d);
  }

  /** The whole live log, flushed or not, replays to the current dataset. */
  lemma LiveLogReplays<S>(w: World<S>, s: State, h: History)
    requires LogOk(w, s, h)
    ensures Perform(w, Entries(0, h.log)) == Perform(w, h.done)
    ensures DbAfterAll(0, h.log) == DbAfterAll(DbAfterAll(0, h.log[..h.base]), h.log[h.base..])
  {
    hide Perform, PrintLog;
    assert h.log == h.log[..h.base] + h.log[h.base..];
    JoinReplays(w, h.log[..h.base], h.log[h.base..], h.done[..h.start], h.done[h.start..]);
    assert h.done == h.done[..h.start] + h.done[h.start..];
  }

  // ----- steps that change the log -----

  lemma ExecuteKeepsLog<S(!new)>(w: World<S>, s: State, h: History, db: nat, cmds: seq<Command>)
    requires s.mode == On && LogOk(w, s, h) && w.known("SELECT") && Enabled(w, s, h, Execute(db, cmds))
    ensures LogOk(w, Executed(s, db, cmds), Record(s, h, Execute(db, cmds)))
  {
    hide Perform, PrintLog, Fed, Entries, DbAfterAll;
    var fed := Fed(s.selected, db, cmds);
    var s', h' := Executed(s, db, cmds), Record(s, h, Execute(db, cmds));
    FedIsLoggable(w, s.selected, db, cmds);
    LoggableConcat(w, h.log, fed);
    PrintLogConcat(h.log, fed);
    assert s'.file + s'.buf == (s.file + s.buf) + PrintLog(fed);
    var a, b := h.log[..h.base], h.log[h.base..];
    assert h'.log[..h.base] == a && h'.log[h.base..] == b + fed;
    LiveLogReplays(w, s, h);
    AppendKeepsStep(DbAfterAll(0, a), b, h.done[h.start..], s.selected, db, cmds);
    assert h'.done[..h.start] == h.done[..h.start];
    assert h'.done[h.start..] == h.done[h.start..] + InDb(db, cmds);
    assert h'.log == a + (b + fed);
    EntriesConcat(0, a, b + fed);
  }

  /** When the buffer is empty everything is on disk. */
  lemma AllOnDiskKeepsLog<S>(w: World<S>, s: State, h: History)
    requires s.buf == [] && s.file + s.buf == PrintLog(h.log) && s.size == |s.file| && Loggable(w, h.log)
    requires Perform(w, Entries(0, h.log)) == Perform(w, h.done)
    requires s.selected.Some? ==> DbAfterAll(0, h.log) == s.selected.value
    ensures LogOk(w, s, AllOnDisk(h))
  {
    hide Perform, PrintLog;
    assert h.log[..|h.log|] == h.log && h.log[|h.log|..] == [];
    assert h.done[..|h.done|] == h.done && h.done[|h.done|..] == [];
    assert s.file + [] == s.file;
  }

  lemma FlushKeepsLog<S>(w: World<S>, s: State, h: History, wr: Write)
    requires LogOk(w, s, h) && s.mode == On
    ensures LogOk(w, Flushed(s, wr), Record(s, h, Flush(wr)))
    ensures LogOk(w, Flushed(s, wr), h)
  {
    hide Perform, PrintLog, Entries, DbAfterAll;
    var s' := Flushed(s, wr);
    assert s'.file + s'.buf == s.file + s.buf;
    assert |s'.file| >= |s.file|;
    if wr == Full {
      LiveLogReplays(w, s, h);
      AllOnDiskKeepsLog(w, s', h);
    }
  }

  // ----- steps of the rewrite -----

  lemma ForkStartsRewrite<S>(w: World<S>, s: State, h: History, image: seq<Command>)
    requires s.child.None? && s.blocks == [] && Image(w, image, h.done)
    ensures RewriteOk(w, Forked(s, image), h.(image := image, diff := [], forked := |h.done|))
  {
    hide Perform;
    assert h.done[..|h.done|] == h.done && h.done[|h.done|..] == [];
  }

  lemma ExecuteKeepsRewrite<S(!new)>(w: World<S>, s: State, h: History, db: nat, cmds: seq<Command>)
    requires s.child.Some? && s.mode != Off && RewriteOk(w, s, h) && w.known("SELECT")
    requires Enabled(w, s, h, Execute(db, cmds))
    ensures RewriteOk(w, Executed(s, db, cmds), Record(s, h, Execute(db, cmds)))
  {
    hide Perform, PrintLog, Fed, Entries, DbAfterAll;
    var fed := Fed(s.selected, db, cmds);
    var s', h' := Executed(s, db, cmds), Record(s, h, Execute(db, cmds));
    FedIsLoggable(w, s.selected, db, cmds);
    LoggableConcat(w, h.diff, fed);
    PrintLogConcat(h.diff, fed);
    Assoc(s.child.value.diff + s.pipes.data, s.blocks, PrintLog(fed));
    AppendKeepsStep(DbAfterAll(0, h.image), h.diff, h.done[h.forked..], s.selected, db, cmds);
    assert h'.done[..h.forked] == h.done[..h.forked];
    assert h'.done[h.forked..] == h.done[h.forked..] + InDb(db, cmds);
  }

  /** Moving bytes from the blocks to the pipe and from the pipe to the child neither loses, repeats nor reorders
      any. */
  lemma TransferKeepsRewrite<S(!new)>(w: World<S>, s: State, h: History, e: Event)
    requires s.child.Some? && RewriteOk(w, s, h) && PipesOk(s)
    requires e.SendDiff? || e.ReadDiff? || e.Ask? || e.Answer? || e.Finish?
    ensures var s' := Step(w, s, e); s'.child.Some? && RewriteOk(w, s', h) && PipesOk(s')
  {
    hide Perform, PrintLog, Entries, DbAfterAll;
    var s' := Step(w, s, e);
    var c := s.child.value;
    match e
    case SendDiff(n) =>
      if n <= |s.blocks| {
        assert (c.diff + (s.pipes.data + s.blocks[..n])) + s.blocks[n..] == c.diff + s.pipes.data + s.blocks;
      }
    case ReadDiff(n) =>
      if n <= |s.pipes.data| {
        assert (c.diff + s.pipes.data[..n]) + s.pipes.data[n..] + s.blocks == c.diff + s.pipes.data + s.blocks;
      }
    case Finish =>
      assert (c.diff + s.pipes.data) + [] + s.blocks == c.diff + s.pipes.data + s.blocks;
    case _ =>
  }

  /** The switch: the new file is the image followed by exactly what was executed since the fork, so dropping the
      buffer loses nothing, and the file replays to the current dataset. */
  lemma SwitchLosesNothing<S>(w: World<S>, s: State, h: History)
    requires s.child.Some? && s.child.value.finished && s.mode != Off && RewriteOk(w, s, h) && PipesOk(s)
    ensures Switched(s).file == PrintLog(h.image) + PrintLog(h.diff) == PrintLog(h.image + h.diff)
    ensures Switched(s).mode == On && Switched(s).buf == []
    ensures Entries(DbAfterAll(0, h.image), h.diff) == h.done[h.forked..]
    ensures Perform(w, Entries(0, h.image + h.diff)) == Perform(w, h.done)
    ensures LogOk(w, Switched(s), AllOnDisk(h.(log := h.image + h.diff)))
  {
    hide Perform, PrintLog, Entries, DbAfterAll;
    var c := s.child.value;
    assert c.diff + [] == c.diff;
    PrintLogConcat(h.image, h.diff);
    Assoc(c.image, c.diff, s.blocks);
    JoinReplays(w, h.image, h.diff, h.done[..h.forked], h.done[h.forked..]);
    assert h.done == h.done[..h.forked] + h.done[h.forked..];
    LoggableConcat(w, h.image, h.diff);
    var s' := Switched(s);
    assert s'.file + [] == s'.file;
    AllOnDiskKeepsLog(w, s', h.(log := h.image + h.diff));
  }

  // ----- crashes -----

  /** The commands on disk replay to the dataset after the entries they stand for. */
  lemma KeptReplays<S>(w: World<S>, s: State, h: History)
    requires LogOk(w, s, h)
    ensures h.base <= Kept(s, h) && h.start <= Recovered(s, h) <= |h.done|
    ensures Perform(w, Entries(0, h.log[..Kept(s, h)])) == Perform(w, h.done[..Recovered(s, h)])
    ensures s.buf == [] ==> Recovered(s, h) == |h.done|
  {
    hide Perform, PrintLog, DbAfterAll, Whole, Entries;
    WholeByLength(h.log, |s.file|, h.base);
    var k := Kept(s, h);
    var a, b, c := h.log[..h.base], h.log[h.base..k], h.log[k..];
    var db := DbAfterAll(0, a);
    assert h.log[h.base..] == b + c;
    EntriesConcat(db, b, c);
    assert Entries(db, b) == h.done[h.start..Recovered(s, h)];
    assert h.log[..k] == a + b;
    JoinReplays(w, a, b, h.done[..h.start], h.done[h.start..Recovered(s, h)]);
    assert h.done[..h.start] + h.done[h.start..Recovered(s, h)] == h.done[..Recovered(s, h)];
    if s.buf == [] {
      EmptyBufferKeepsAll(s, h);
      PlainEntries(DbAfterAll(db, b), c);
    }
  }

  lemma EmptyBufferKeepsAll(s: State, h: History)
    requires s.buf == [] && s.file + s.buf == PrintLog(h.log)
    ensures Kept(s, h) == |h.log|
  {
    hide PrintLog, Whole;
    assert s.file + [] == s.file;
    AllAreWhole(h.log);
  }

  /** Restarting from any reachable file succeeds: the loader executes the whole commands on disk and leaves a file
      that holds just these. */
  lemma RestartLoads<S>(w: World<S>, s: State, h: History)
    requires LogOk(w, s, h)
    ensures var out := Load(w.known, true, s.file); var cmds := h.log[..Kept(s, h)];
            match out
            case Empty => s.file == [] && cmds == []
            case Loaded(cs) => cs == cmds
            case Truncated(cs, size) => cs == cmds
            case _ => false
    ensures Reloaded(w, s.file) == PrintLog(h.log[..Kept(s, h)])
  {
    hide LoadFrom, PrintCommand, Perform, Entries, DbAfterAll;
    var n := |s.file|;
    assert s.file == PrintLog(h.log)[..n];
    WholeIsGreatest(h.log, n);
    var k := Kept(s, h);
    PrefixOfLog(h.log, k);
    if n == 0 {
      EmptyHasNoCommands(h.log[..k]);
    } else {
      CutLogLoads(w.known, h.log, n);
      var end := |PrintLog(h.log[..k])|;
      assert s.file[..end] == PrintLog(h.log[..k]);
      assert n == end ==> s.file == s.file[..end];
    }
  }

  lemma EmptyHasNoCommands(cs: seq<Command>)
    requires |PrintLog(cs)| == 0
    ensures cs == []
  {
    if cs != [] {
      StartsWithStar(cs);
    }
  }

  lemma CrashKeepsLog<S(!new)>(w: World<S>, s: State, h: History)
    requires LogOk(w, s, h)
    ensures LogOk(w, Step(w, s, Crash), Record(s, h, Crash))
  {
    hide Perform, PrintLog, Entries, DbAfterAll, Load;
    KeptReplays(w, s, h);
    RestartLoads(w, s, h);
    var s' := Step(w, s, Crash);
    assert s'.file + [] == s'.file;
    AllOnDiskKeepsLog(w, s', h.(log := h.log[..Kept(s, h)], done := h.done[..Recovered(s, h)]));
  }

  // ----- every step, every run -----

  lemma StepKeepsPipes<S>(w: World<S>, s: State, e: Event)
    requires PipesOk(s)
    ensures PipesOk(Step(w, s, e))
  {
    hide PrintLog, Load;
  }

  /** Steps that leave the file, the buffer and what they stand for alone. */
  ghost predicate Quiet(s: State, e: Event) {
    match e
    case Execute(_, _) => false
    case Flush(_) => false
    case Crash => false
    case TurnOff(_) => s.mode == Off
    case Switch(ok) => !ok || s.child.None? || !s.child.value.finished
    case _ => true
  }

  lemma QuietKeepsLog<S(!new)>(w: World<S>, s: State, h: History, e: Event)
    requires LogOk(w, s, h) && s.mode == On && Quiet(s, e)
    ensures Step(w, s, e).mode == On && LogOk(w, Step(w, s, e), Record(s, h, e))
  {
    hide PrintLog, Load, Perform, Entries, DbAfterAll;
  }

  lemma StepKeepsLog<S(!new)>(w: World<S>, s: State, h: History, e: Event)
    requires Inv(w, s, h) && Enabled(w, s, h, e)
    ensures Step(w, s, e).mode == On ==> LogOk(w, Step(w, s, e), Record(s, h, e))
  {
    hide PrintLog, Load, LogOk, RewriteOk, PipesOk, AllOnDisk;
    if Step(w, s, e).mode == On {
      if e.Switch? && !Quiet(s, e) {
        if s.mode != Off {
          SwitchLosesNothing(w, s, h);
        }
      } else if s.mode == On {
        if Quiet(s, e) {
          QuietKeepsLog(w, s, h, e);
        } else {
          match e
          case Execute(db, cmds) => ExecuteKeepsLog(w, s, h, db, cmds);
          case Flush(wr) => FlushKeepsLog(w, s, h, wr);
          case Crash => CrashKeepsLog(w, s, h);
          case _ =>
        }
      }
    }
  }

  lemma FlushKeepsRewrite<S>(w: World<S>, s: State, h: History, wr: Write)
    requires s.child.Some? && RewriteOk(w, s, h)
    ensures RewriteOk(w, Flushed(s, wr), Record(s, h, Flush(wr)))
  {
    hide PrintLog, Perform, Entries, DbAfterAll;
  }

  lemma StepKeepsRewrite<S(!new)>(w: World<S>, s: State, h: History, e: Event)
    requires Inv(w, s, h) && Enabled(w, s, h, e)
    ensures var s' := Step(w, s, e); s'.child.Some? && s'.mode != Off ==> RewriteOk(w, s', Record(s, h, e))
  {
    hide PrintLog, Load, LogOk, RewriteOk, AllOnDisk, Forked;
    var s' := Step(w, s, e);
    if s'.child.Some? && s'.mode != Off {
      match e
      case Execute(db, cmds) => ExecuteKeepsRewrite(w, s, h, db, cmds);
      case Flush(wr) => FlushKeepsRewrite(w, s, h, wr);
      case Fork(image) =>
        if s.child.None? {
          ForkStartsRewrite(w, s, h, image);
        }
      case TurnOn(forked) => TurnOnStartsRewrite(w, s, h, forked);
      case _ =>
        if e.SendDiff? || e.ReadDiff? || e.Ask? || e.Answer? || e.Finish? {
          TransferKeepsRewrite(w, s, h, e);
        }
    }
  }

  lemma TurnOnStartsRewrite<S(!new)>(w: World<S>, s: State, h: History, forked: Option<seq<Command>>)
    requires Inv(w, s, h) && Enabled(w, s, h, TurnOn(forked))
    ensures var s' := Step(w, s, TurnOn(forked));
            s'.child.Some? && s'.mode != Off ==> RewriteOk(w, s', Record(s, h, TurnOn(forked)))
  {
    hide PrintLog, Perform, Entries, DbAfterAll;
    if s.mode == Off && s.child.None? && forked.Some? {
      ForkStartsRewrite(w, s, h, forked.value);
    }
  }

  lemma StepKeepsInv<S(!new)>(w: World<S>, s: State, h: History, e: Event)
    requires Inv(w, s, h) && Enabled(w, s, h, e)
    ensures Inv(w, Step(w, s, e), Record(s, h, e))
  {
    hide Step, Record, Enabled, LogOk, RewriteOk, PipesOk;
    StepKeepsPipes(w, s, e);
    StepKeepsLog(w, s, h, e);
    StepKeepsRewrite(w, s, h, e);
  }

  lemma {:induction false} RunKeepsInv<S(!new)>(w: World<S>, s0: State, h0: History, run: seq<Event>, s: State, h: History)
    requires Inv(w, s0, h0) && Runs(w, s0, h0, run, s, h)
    ensures Inv(w, s, h)
    decreases |run|
  {
    hide Step, Record, Enabled, Inv;
    if run != [] {
      StepKeepsInv(w, s0, h0, run[0]);
      RunKeepsInv(w, Step(w, s0, run[0]), Record(s0, h0, run[0]), run[1..], s, h);
    }
  }

  lemma ReachableOk<S(!new)>(w: World<S>, run: seq<Event>, s: State, h: History)
    requires Reaches(w, run, s, h)
    ensures Inv(w, s, h)
  {
    assert Inv(w, INITIAL, NO_HISTORY);
    RunKeepsInv(w, INITIAL, NO_HISTORY, run, s, h);
  }

  /** Loading the file rebuilds the dataset after the first `m` entries. */
  ghost predicate Rebuilds<S>(w: World<S>, f: Bytes, done: seq<Entry>, m: nat) {
    && m <= |done|
    && match Load(w.known, true, f)
       case Empty => Perform(w, []) == Perform(w, done[..m])
       case Loaded(cs) => Perform(w, Entries(0, cs)) == Perform(w, done[..m])
       case Truncated(cs, _) => Perform(w, Entries(0, cs)) == Perform(w, done[..m])
       case _ => false
  }

  /** Durability: in every reachable state with the log on, loading the file on disk succeeds and rebuilds the
      dataset as it was after the first `m` executed entries, where `m` covers everything up to the last complete
      flush or switch, and everything at all when the buffer is empty. */
  lemma RecoversAPrefix<S(!new)>(w: World<S>, run: seq<Event>, s: State, h: History)
    requires Reaches(w, run, s, h) && s.mode == On
    ensures exists m: nat :: h.start <= m && Rebuilds(w, s.file, h.done, m) && (s.buf == [] ==> m == |h.done|)
  {
    hide Reaches, Load, Perform, PrintLog, DbAfterAll;
    ReachableOk(w, run, s, h);
    KeptReplays(w, s, h);
    RestartLoads(w, s, h);
    assert Rebuilds(w, s.file, h.done, Recovered(s, h));
  }

  /** Switching the log off with a complete write leaves a file that replays to the dataset of that moment. */
  lemma TurnOffLosesNothing<S(!new)>(w: World<S>, run: seq<Event>, s: State, h: History)
    requires Reaches(w, run, s, h) && s.mode == On
    ensures var s' := Step(w, s, TurnOff(Full));
            && s'.file == s.file + s.buf && s'.mode == Off && s'.child.None?
            && Rebuilds(w, s'.file, h.done, |h.done|)
  {
    hide Reaches, Load, Perform, PrintLog, DbAfterAll;
    ReachableOk(w, run, s, h);
    var s' := Flushed(s, Full);
    FlushKeepsLog(w, s, h, Full);
    assert s.file + [] == s.file;
    KeptReplays(w, s', h);
    RestartLoads(w, s', h);
    assert Rebuilds(w, s'.file, h.done, Recovered(s', h));
  }

  /** Conservation: with the log on, file and buffer together are every byte fed, and the size counter is the
      length of the file. */
  lemma FlushConserves<S(!new)>(w: World<S>, run: seq<Event>, s: State, h: History)
    requires Reaches(w, run, s, h) && s.mode == On
    ensures s.file + s.buf == PrintLog(h.log) && s.size == |s.file|
    ensures Perform(w, Entries(0, h.log)) == Perform(w, h.done)
  {
    ReachableOk(w, run, s, h);
    LiveLogReplays(w, s, h);
  }

  /** Handoff: in every reachable state of a rewrite with the log on or awaited, the child's diff, the pipe and the
      parent's blocks are the text of what was executed since the fork, each command in its own database. */
  lemma HandoffConserves<S(!new)>(w: World<S>, run: seq<Event>, s: State, h: History)
    requires Reaches(w, run, s, h) && s.mode != Off && s.child.Some?
    ensures s.child.value.diff + s.pipes.data + s.blocks == PrintLog(h.diff)
    ensures h.forked <= |h.done| && Entries(DbAfterAll(0, h.image), h.diff) == h.done[h.forked..]
    ensures s.child.value.finished ==> s.pipes.data == [] && s.pipes.stop
  {
    ReachableOk(w, run, s, h);
  }
}
