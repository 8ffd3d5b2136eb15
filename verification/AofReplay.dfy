/** Replaying a log: which command runs in which database, and the dataset that results. */
module AofReplay {

  import opened Base
  import opened AofFormat
  import opened AofLoad

  datatype Entry = Entry(db: nat, cmd: Command)

  /** The commands of the server as a function on datasets, the empty dataset, and the command table. */
  datatype World<!S> = World(exec: (S, nat, Command) -> S, init: S, known: Bytes -> bool)

  predicate IsSelect(c: Command) {
    c != [] && ToLower(c[0]) == "select"
  }

  predicate IsNumeral(s: Bytes) {
    s != [] && forall i :: 0 <= i < |s| ==> IsDigit(s[i])
  }

  /** The database of the loading client after a command; a SELECT it cannot read changes nothing. */
  function DbAfter(db: nat, c: Command): nat {
    if IsSelect(c) && |c| == 2 && IsNumeral(c[1]) then DigitRun(c[1], 0) else db
  }

  function DbAfterAll(db: nat, cs: seq<Command>): nat
    decreases |cs|
  {
    if cs == [] then db else DbAfterAll(DbAfter(db, cs[0]), cs[1..])
  }

  function Entries1(db: nat, c: Command): seq<Entry> {
    if IsSelect(c) then [] else [Entry(db, c)]
  }

  /** What replaying executes: every command but SELECT, in the database selected at that point. */
  function Entries(db: nat, cs: seq<Command>): seq<Entry>
    decreases |cs|
  {
    if cs == [] then [] else Entries1(db, cs[0]) + Entries(DbAfter(db, cs[0]), cs[1..])
  }

  function Perform<S>(w: World<S>, es: seq<Entry>): S {
    if es == [] then w.init
    else var e := es[|es| - 1]; w.exec(Perform(w, es[..|es| - 1]), e.db, e.cmd)
  }

  lemma ConcatAssoc(x: seq<Entry>, y: seq<Entry>, z: seq<Entry>)
    ensures (x + y) + z == x + (y + z)
  {
  }

  lemma {:induction false} EntriesConcat(db: nat, a: seq<Command>, b: seq<Command>)
    ensures DbAfterAll(db, a + b) == DbAfterAll(DbAfterAll(db, a), b)
    ensures Entries(db, a + b) == Entries(db, a) + Entries(DbAfterAll(db, a), b)
    decreases |a|
  {
    hide Entries1, DbAfter;
    if a == [] {
      assert a + b == b;
      assert Entries(db, a) + Entries(db, b) == Entries(db, b);
    } else {
      assert (a + b)[0] == a[0] && (a + b)[1..] == a[1..] + b;
      EntriesConcat(DbAfter(db, a[0]), a[1..], b);
      ConcatAssoc(Entries1(db, a[0]), Entries(DbAfter(db, a[0]), a[1..]), Entries(DbAfterAll(db, a), b));
    }
  }

  /** What is executed after equal datasets leaves equal datasets. */
  lemma {:induction false} PerformAfter<S>(w: World<S>, a: seq<Entry>, a': seq<Entry>, b: seq<Entry>)
    requires Perform(w, a) == Perform(w, a')
    ensures Perform(w, a + b) == Perform(w, a' + b)
  {
    if b == [] {
      assert a + b == a && a' + b == a';
    } else {
      var b0 := b[..|b| - 1];
      PerformAfter(w, a, a', b0);
      assert (a + b)[..|a + b| - 1] == a + b0 && (a' + b)[..|a' + b| - 1] == a' + b0;
    }
  }

  function InDb(db: nat, cs: seq<Command>): (es: seq<Entry>)
    ensures |es| == |cs| && forall i :: 0 <= i < |es| ==> es[i] == Entry(db, cs[i])
  {
    seq(|cs|, i requires 0 <= i < |cs| => Entry(db, cs[i]))
  }

  function Select(db: nat): Command {
    ["SELECT", Decimal(db)]
  }

  /** What feedAppendOnlyFile logs for commands run in `db`: a SELECT first unless the log is already there. */
  function Fed(selected: Option<nat>, db: nat, cs: seq<Command>): seq<Command> {
    (if selected == Some(db) then [] else [Select(db)]) + cs
  }

  lemma SelectSelects(cur: nat, db: nat)
    ensures IsSelect(Select(db)) && DbAfter(cur, Select(db)) == db
  {
    assert ToLower("SELECT") == "select";
    assert Decimal(db) + [] == Decimal(db);
    DecimalReads(db, [], 0);
  }

  lemma {:induction false} PlainEntries(db: nat, cs: seq<Command>)
    requires forall i :: 0 <= i < |cs| ==> !IsSelect(cs[i])
    ensures Entries(db, cs) == InDb(db, cs) && DbAfterAll(db, cs) == db
    decreases |cs|
  {
    hide IsSelect;
    if cs != [] {
      PlainEntries(db, cs[1..]);
    }
  }

  /** Whatever log the fed commands are appended to, they replay in the database they ran in, provided
      `selected`, when known, is where that log ends. */
  lemma FedReplays(selected: Option<nat>, cur: nat, db: nat, cs: seq<Command>)
    requires selected.Some? ==> selected.value == cur
    requires forall i :: 0 <= i < |cs| ==> !IsSelect(cs[i])
    ensures Entries(cur, Fed(selected, db, cs)) == InDb(db, cs)
    ensures DbAfterAll(cur, Fed(selected, db, cs)) == db
  {
    hide IsSelect, DbAfter;
    PlainEntries(db, cs);
    if selected == Some(db) {
      assert [] + cs == cs;
    } else {
      SelectSelects(cur, db);
      var f := Fed(selected, db, cs);
      assert f[0] == Select(db) && f[1..] == cs;
    }
  }
}
