/** What the commands that give keys a deadline, or take keys away, do to the dataset. The other commands stay open. */
module AofCommands {
  import opened Base
  import opened AofFormat
  import opened AofLoad

  datatype Place = Place(db: nat, key: Bytes)

  /** A value, and the absolute time in milliseconds after which it is gone. */
  datatype Item<V> = Item(value: V, deadline: Option<int>)

  type Dataset<V> = map<Place, Item<V>>

  /** A reading of mstime(). */
  type Time = t: int | 0 <= t <= LONG_MAX

  datatype Proc = Expire | Pexpire | ExpireAt | PexpireAt | Setex | Psetex | Set | Restore | Del | Other

  /** What this model leaves open: the value a text stands for, the value in a DUMP payload that passes the checks,
      every other command, and whether expired keys are freed lazily. */
  datatype Commands<!V> = Commands(
    text: Bytes -> V,
    payload: Bytes -> Option<V>,
    rest: (Dataset<V>, nat, Command) -> Dataset<V>,
    lazyExpire: bool)

  /** The command table; names are found in any case. */
  function ProcNamed(name: Bytes): Proc {
    if name == "expire" then Expire
    else if name == "pexpire" then Pexpire
    else if name == "expireat" then ExpireAt
    else if name == "pexpireat" then PexpireAt
    else if name == "setex" then Setex
    else if name == "psetex" then Psetex
    else if name == "set" then Set
    else if name == "restore" then Restore
    else if name == "del" || name == "unlink" then Del
    else Other
  }

  function ProcOf(argv: Command): Proc {
    if argv == [] then Other else ProcNamed(ToLower(argv[0]))
  }

  // ---------------------------------------------------------------- numbers

  predicate IsLong(n: int) {
    -LONG_MAX - 1 <= n <= LONG_MAX
  }

  /** A sum or product as a long long holds it. */
  function Long(n: int): (v: int)
    ensures IsLong(v) && (IsLong(n) ==> v == n) && (v - n) % (2 * LONG_MAX + 2) == 0
  {
    (n + LONG_MAX + 1) % (2 * LONG_MAX + 2) - LONG_MAX - 1
  }

  function SignedDecimal(n: int): Bytes {
    if n < 0 then "-" + Decimal(-n) else Decimal(n)
  }

  /** What string2ll accepts: a long, written the one way the server prints it. */
  predicate IsInteger(s: Bytes) {
    s == SignedDecimal(StrToL(s))
  }

  lemma SignedReads(n: int)
    requires IsLong(n)
    ensures StrToL(SignedDecimal(n)) == n && IsInteger(SignedDecimal(n))
  {
    var m: nat := if n < 0 then -n else n;
    var d := Decimal(m);
    assert d + [] == d && d[0] in d;
    DecimalReads(m, [], 0);
    if n < 0 {
      assert ("-" + d)[0] == '-' && ("-" + d)[1..] == d;
    }
  }

  // ---------------------------------------------------------------- the options of SET

  datatype Unit = Seconds | Milliseconds

  datatype Options = SyntaxError | Options(nx: bool, xx: bool, unit: Option<Unit>, time: Bytes)

  const NO_OPTIONS := Options(false, false, None, [])

  /** The loop of setCommand. Of several times of one unit the last counts. */
  function Parse(opts: seq<Bytes>, o: Options): Options
    requires o.Options?
  {
    if opts == [] then o else
    var a := ToLower(opts[0]);
    if a == "nx" && !o.xx then Parse(opts[1..], o.(nx := true))
    else if a == "xx" && !o.nx then Parse(opts[1..], o.(xx := true))
    else if a == "ex" && o.unit != Some(Milliseconds) && |opts| >= 2 then
      Parse(opts[2..], o.(unit := Some(Seconds), time := opts[1]))
    else if a == "px" && o.unit != Some(Seconds) && |opts| >= 2 then
      Parse(opts[2..], o.(unit := Some(Milliseconds), time := opts[1]))
    else SyntaxError
  }

  predicate PositiveTime(s: Bytes) {
    IsInteger(s) && StrToL(s) > 0
  }

  /** Neither a syntax error nor a time that is no positive number. */
  predicate OptionsOk(o: Options) {
    o.Options? && (o.unit.Some? ==> PositiveTime(o.time))
  }

  /** setGenericCommand's deadline. */
  function SetDeadline(o: Options, t: Time): Option<int>
    requires o.Options?
  {
    match o.unit
    case None => None
    case Some(Seconds) => Some(Long(t + Long(StrToL(o.time) * 1000)))
    case Some(Milliseconds) => Some(Long(t + StrToL(o.time)))
  }

  // ---------------------------------------------------------------- execution

  predicate SetsDeadline(proc: Proc) {
    proc == Expire || proc == Pexpire || proc == ExpireAt || proc == PexpireAt
  }

  /** expireGenericCommand's deadline. */
  function Deadline(proc: Proc, text: Bytes, t: Time): int {
    match proc
    case Expire => Long(Long(StrToL(text) * 1000) + t)
    case Pexpire => Long(StrToL(text) + t)
    case ExpireAt => Long(StrToL(text) * 1000)
    case _ => StrToL(text)
  }

  /** The commands their implementations do not answer with an error whatever the dataset is. */
  predicate Accepted(argv: Command) {
    match ProcOf(argv)
    case Other => true
    case Del => |argv| >= 2
    case Set => |argv| >= 3 && OptionsOk(Parse(argv[3..], NO_OPTIONS))
    case Setex | Psetex => |argv| == 4 && PositiveTime(argv[2])
    case Restore => |argv| >= 4 && IsInteger(argv[2]) && StrToL(argv[2]) >= 0 && forall a :: a in argv[4..] ==> ToLower(a) == "replace"
    case _ => |argv| == 3 && IsInteger(argv[2])
  }

  /** The commands that count as a change (server.dirty), and are therefore logged. */
  predicate Takes<V>(c: Commands<V>, d: Dataset<V>, db: nat, argv: Command) {
    && Accepted(argv)
    && match ProcOf(argv)
       case Other => true
       case Del => exists i :: 1 <= i < |argv| && Place(db, argv[i]) in d
       case Set =>
         var o := Parse(argv[3..], NO_OPTIONS);
         (o.nx ==> Place(db, argv[1]) !in d) && (o.xx ==> Place(db, argv[1]) in d)
       case Setex | Psetex => true
       case Restore => c.payload(argv[3]).Some? && (|argv| > 4 || Place(db, argv[1]) !in d)
       case _ => Place(db, argv[1]) in d
  }

  function Without<V>(d: Dataset<V>, db: nat, keys: seq<Bytes>): Dataset<V> {
    map p | p in d && (p.db == db ==> p.key !in keys) :: d[p]
  }

  /** The dataset after a command that is executed in `db` at time `t`. A deadline that has passed takes the key away
      at once, but not while the log is loaded. A master is meant, and keys that are overdue are evicted first, with a
      DEL of their own. */
  function Run<V>(c: Commands<V>, d: Dataset<V>, db: nat, argv: Command, t: Time, loading: bool): Dataset<V> {
    if !Takes(c, d, db, argv) then d else
    match ProcOf(argv)
    case Other => c.rest(d, db, argv)
    case Del => Without(d, db, argv[1..])
    case Set => d[Place(db, argv[1]) := Item(c.text(argv[2]), SetDeadline(Parse(argv[3..], NO_OPTIONS), t))]
    case Setex => d[Place(db, argv[1]) := Item(c.text(argv[3]), Some(Long(t + Long(StrToL(argv[2]) * 1000))))]
    case Psetex => d[Place(db, argv[1]) := Item(c.text(argv[3]), Some(Long(t + StrToL(argv[2]))))]
    case Restore =>
      var ttl := StrToL(argv[2]);
      d[Place(db, argv[1]) := Item(c.payload(argv[3]).value, if ttl == 0 then None else Some(Long(t + ttl)))]
    case proc =>
      var p, when := Place(db, argv[1]), Deadline(proc, argv[2], t);
      if when <= t && !loading then Without(d, db, [argv[1]]) else d[p := d[p].(deadline := Some(when))]
  }

  /** The command as it stands for the log: an expire that took the key away has become a deletion. */
  function Rewritten<V>(c: Commands<V>, argv: Command, t: Time): Command
    requires Accepted(argv)
  {
    if SetsDeadline(ProcOf(argv)) && Deadline(ProcOf(argv), argv[2], t) <= t
    then [if c.lazyExpire then "UNLINK" else "DEL", argv[1]]
    else argv
  }
}
