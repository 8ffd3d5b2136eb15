/** The append-only file of a running server: the write buffer, the background rewrite with its pipe and stop
    exchange, switching the log on and off, and crashes, as a state machine. */
module AofServer {

  import opened Base
  import opened AofFormat
  import opened AofLoad
  import opened AofRecovery
  import opened AofReplay

  datatype Mode = Off | On | Wait    // AOF_OFF, AOF_ON, AOF_WAIT_REWRITE

  /** The rewriting child: the image it writes, the diff it has read, whether it has sent '!', and whether it has
      got the answer, read the rest and written everything to its file. */
  datatype Child = Child(image: Bytes, diff: Bytes, asked: bool, finished: bool)

  /** The data pipe, the parent's aof_stop_sending_diff, and whether its '!' is on the way back. */
  datatype Pipes = Pipes(data: Bytes, stop: bool, ack: bool)

  datatype State = State(
    file: Bytes,              // the append-only file
    buf: Bytes,               // aof_buf
    size: nat,                // aof_current_size
    selected: Option<nat>,    // aof_selected_db, None for -1
    mode: Mode,               // aof_state
    child: Option<Child>,     // aof_child_pid and the process behind it
    blocks: Bytes,            // aof_rewrite_buf_blocks, joined
    pipes: Pipes)

  /** How the write of a flush ends: whole, with an error, or after `n` bytes, which ftruncate then may remove. */
  datatype Write = Full | Failed | Partial(n: nat, removed: bool)

  datatype Event =
    | Execute(db: nat, cmds: seq<Command>)     // a write command, as translated for the log
    | Flush(w: Write)
    | Fork(image: seq<Command>)
    | SendDiff(n: nat)
    | ReadDiff(n: nat)
    | Ask
    | Answer(sent: bool)
    | Finish
    | ChildDies
    | Switch(ok: bool)                         // the child exited; opening, writing and renaming may fail
    | TurnOff(w: Write)
    | TurnOn(forked: Option<seq<Command>>)     // None while another child delays the rewrite
    | Crash                                    // and restart, loading the file

  /** What happened: all entries executed; the commands behind file and buffer, how many of them are certainly on
      disk, and how many entries those stand for; the commands behind the rewrite and when it was forked. */
  datatype History = History(
    done: seq<Entry>,
    log: seq<Command>, base: nat, start: nat,
    image: seq<Command>, diff: seq<Command>, forked: nat)

  const NO_PIPES := Pipes([], false, false)

  function Flushed(s: State, w: Write): State {
    if s.buf == [] then s else
    match w
    case Full => s.(file := s.file + s.buf, size := s.size + |s.buf|, buf := [])
    case Failed => s
    case Partial(n, removed) =>
      if n == 0 || n >= |s.buf| then s
      else if removed then s.(file := Resized(s.file + s.buf[..n], s.size))
      else s.(file := s.file + s.buf[..n], size := s.size + n, buf := s.buf[n..])
  }

  /** ftruncate: cut, or filled up with zero bytes. */
  function Resized(f: Bytes, size: nat): Bytes {
    if size <= |f| then f[..size] else f + seq(size - |f|, _ => 0 as char)
  }

  function Forked(s: State, image: seq<Command>): State {
    s.(child := Some(Child(PrintLog(image), [], false, false)), pipes := NO_PIPES, selected := None)
  }

  /** The end of every rewrite. */
  function Cleaned(s: State): State {
    s.(child := None, blocks := [], pipes := NO_PIPES)
  }

  function Switched(s: State): State
    requires s.child.Some?
  {
    var f := s.child.value.image + s.child.value.diff + s.blocks;
    Cleaned(if s.mode == Off then s.(file := f)
            else s.(file := f, selected := None, size := |f|, buf := [], mode := On))
  }

  function Executed(s: State, db: nat, cmds: seq<Command>): State {
    if s.mode == Off then s else
    var text := PrintLog(Fed(s.selected, db, cmds));
    s.(selected := Some(db),
       buf := if s.mode == On then s.buf + text else s.buf,
       blocks := if s.child.Some? then s.blocks + text else s.blocks)
  }

  /** The parent moves `n` bytes into the pipe, unless it was told to stop. */
  function Sent(s: State, n: nat): State {
    if s.pipes.stop || n > |s.blocks| then s
    else s.(pipes := s.pipes.(data := s.pipes.data + s.blocks[..n]), blocks := s.blocks[n..])
  }

  /** The file a restart leaves behind: loading may cut it. */
  function Reloaded<S>(w: World<S>, f: Bytes): Bytes {
    var out := Load(w.known, true, f);
    if out.Truncated? && out.size <= |f| then f[..out.size] else f
  }

  function Step<S>(w: World<S>, s: State, e: Event): State {
    match e
    case Execute(db, cmds) => Executed(s, db, cmds)
    case Flush(wr) => Flushed(s, wr)
    case Fork(image) => if s.child.Some? then s else Forked(s, image)
    case SendDiff(n) => if s.child.None? then s else Sent(s, n)
    case ReadDiff(n) =>
      if s.child.None? || s.child.value.asked || n > |s.pipes.data| then s
      else s.(child := Some(s.child.value.(diff := s.child.value.diff + s.pipes.data[..n])),
              pipes := s.pipes.(data := s.pipes.data[n..]))
    case Ask => if s.child.None? then s else s.(child := Some(s.child.value.(asked := true)))
    case Answer(sent) =>
      if s.child.None? || !s.child.value.asked then s else s.(pipes := s.pipes.(stop := true, ack := s.pipes.ack || sent))
    case Finish =>
      if s.child.None? || !s.child.value.asked || !s.pipes.ack then s
      else s.(child := Some(s.child.value.(diff := s.child.value.diff + s.pipes.data, finished := true)),
              pipes := s.pipes.(data := []))
    case ChildDies => if s.child.None? then s else Cleaned(s)
    case Switch(ok) => if s.child.None? || !s.child.value.finished then s else if ok then Switched(s) else Cleaned(s)
    case TurnOff(wr) => if s.mode == Off then s else Cleaned(Flushed(s, wr)).(selected := None, mode := Off)
    case TurnOn(image) =>
      if s.mode != Off || s.child.Some? then s
      else (if image.Some? then Forked(s, image.value) else s).(mode := Wait)
    case Crash =>
      var f := Reloaded(w, s.file);
      State(f, [], |f|, None, On, None, [], NO_PIPES)
  }

  /** What the environment may do: commands are well formed, known and no SELECT; the image replays to the
      dataset at the fork; without a file descriptor writes fail; crashes are considered with the log on. */
  ghost predicate Enabled<S(!new)>(w: World<S>, s: State, h: History, e: Event) {
    match e
    case Execute(db, cmds) => db <= INT_MAX && Loggable(w, cmds) && (forall i :: 0 <= i < |cmds| ==> !IsSelect(cmds[i]))
    case Flush(wr) => s.mode == Off ==> wr == Failed
    case Fork(image) => Image(w, image, h.done)
    case TurnOn(Some(image)) => Image(w, image, h.done)
    case Crash => s.mode == On
    case _ => true
  }

  ghost predicate Loggable<S>(w: World<S>, cs: seq<Command>) {
    WellFormedLog(cs) && AllKnown(w.known, cs)
  }

  ghost predicate Image<S>(w: World<S>, image: seq<Command>, done: seq<Entry>) {
    Loggable(w, image) && Perform(w, Entries(0, image)) == Perform(w, done)
  }

  /** The entries among the first `k` commands of the log. */
  ghost function CountEntries(h: History, k: nat): nat
    requires h.base <= k <= |h.log|
  {
    |Entries(DbAfterAll(0, h.log[..h.base]), h.log[h.base..k])|
  }

  /** How many of the log's commands a restart executes. */
  ghost function Kept(s: State, h: History): (k: nat)
    ensures k <= |h.log|
  {
    Whole(h.log, |s.file|)
  }

  ghost function Recovered(s: State, h: History): nat
    requires h.base <= Kept(s, h)
  {
    h.start + CountEntries(h, Kept(s, h))
  }

  ghost function AllOnDisk(h: History): History {
    h.(base := |h.log|, start := |h.done|)
  }

  ghost function Record(s: State, h: History, e: Event): History {
    match e
    case Execute(db, cmds) =>
      var fed := Fed(s.selected, db, cmds);
      h.(done := h.done + InDb(db, cmds),
         log := if s.mode == On then h.log + fed else h.log,
         diff := if s.mode != Off && s.child.Some? then h.diff + fed else h.diff)
    case Flush(Full) => if s.mode == On then AllOnDisk(h) else h
    case Fork(image) => if s.child.Some? then h else h.(image := image, diff := [], forked := |h.done|)
    case TurnOn(Some(image)) =>
      if s.mode != Off || s.child.Some? then h else h.(image := image, diff := [], forked := |h.done|)
    case Switch(true) =>
      if s.child.Some? && s.child.value.finished && s.mode != Off then AllOnDisk(h.(log := h.image + h.diff)) else h
    case Crash =>
      if h.base <= Kept(s, h) && Recovered(s, h) <= |h.done| then
        AllOnDisk(h.(log := h.log[..Kept(s, h)], done := h.done[..Recovered(s, h)]))
      else h
    case _ => h
  }

  const INITIAL := State([], [], 0, None, On, None, [], NO_PIPES)
  const NO_HISTORY := History([], [], 0, 0, [], [], 0)

  /** The run leads from one state to the other. */
  ghost predicate Runs<S(!new)>(w: World<S>, s0: State, h0: History, run: seq<Event>, s: State, h: History)
    decreases |run|
  {
    if run == [] then s == s0 && h == h0
    else Enabled(w, s0, h0, run[0]) && Runs(w, Step(w, s0, run[0]), Record(s0, h0, run[0]), run[1..], s, h)
  }

  ghost predicate Reaches<S(!new)>(w: World<S>, run: seq<Event>, s: State, h: History) {
    w.known("SELECT") && Runs(w, INITIAL, NO_HISTORY, run, s, h)
  }
}
