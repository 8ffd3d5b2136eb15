/** Loading the append-only file: the reader of loadAppendOnlyFile and its loop. */
module AofLoad {

  import opened AofFormat

  /** sizeof(buf) - 1 of the line buffer. */
  const LINE_MAX := 127

  /** How many bytes fgets takes from the unread input `s`: through the newline, at most `limit`. */
  function LineLen(s: Bytes, limit: nat): (n: nat)
    ensures n <= |s| && n <= limit && (s != [] && limit > 0 ==> n > 0)
  {
    if limit == 0 || s == [] then 0 else if s[0] == '\n' then 1 else 1 + LineLen(s[1..], limit - 1)
  }

  datatype Piece<T> = Piece(value: T, rest: Bytes) | Short | Bad

  /** One bulk string from the unread input: a `$` line, the bytes, and two more bytes. */
  function ReadBulk(s: Bytes): (p: Piece<Bytes>)
    ensures p.Piece? ==> |p.rest| < |s|
  {
    if s == [] then Short else
    var n := LineLen(s, LINE_MAX);
    var line, rest := s[..n], s[n..];
    if line[0] != '$' then Bad else
    var v := StrToL(line[1..]);
    var len: int := if v < 0 then v + 0x1_0000_0000_0000_0000 else v;
    if len > |rest| || |rest| - len < 2 then Short else Piece(rest[..len], rest[len + 2..])
  }

  function Prepend(argv: Command, p: Piece<Command>): Piece<Command> {
    if p.Piece? then Piece(argv + p.value, p.rest) else p
  }

  function ReadBulks(s: Bytes, n: nat): (p: Piece<Command>)
    ensures p.Piece? ==> |p.rest| <= |s| && |p.value| == n
  {
    if n == 0 then Piece([], s) else
    match ReadBulk(s)
    case Short => Short
    case Bad => Bad
    case Piece(arg, rest) => Prepend([arg], ReadBulks(rest, n - 1))
  }

  /** Whether reading this line ran into the end of the file. */
  predicate HitEnd(line: Bytes, s: Bytes) {
    line == s && |line| < LINE_MAX && (line == [] || line[|line| - 1] != '\n')
  }

  datatype Stop = AtEnd | OpenMulti | CutShort | BadFormat | Unreadable | UnknownCommand

  datatype Next = Got(cmd: Command, rest: Bytes) | Halt(why: Stop)

  function ReadCommand(s: Bytes): (r: Next)
    ensures r.Got? ==> |r.rest| < |s| && r.cmd != []
  {
    if s == [] then Halt(AtEnd) else
    var n := LineLen(s, LINE_MAX);
    var line, rest := s[..n], s[n..];
    if line[0] != '*' then Halt(BadFormat)
    else if |line| == 1 || line[1] == 0 as char then Halt(if HitEnd(line, s) then CutShort else Unreadable)
    else if Atoi(line[1..]) < 1 then Halt(BadFormat)
    else
      match ReadBulks(rest, Atoi(line[1..]))
      case Short => Halt(CutShort)
      case Bad => Halt(BadFormat)
      case Piece(cmd, rest') => Got(cmd, rest')
  }

  function ToLower(s: Bytes): Bytes {
    seq(|s|, i requires 0 <= i < |s| => if 'A' <= s[i] <= 'Z' then s[i] - 'A' + 'a' else s[i])
  }

  /** CLIENT_MULTI of the loading client after a command. The commands between are executed at once. */
  predicate MultiAfter(multi: bool, c: Command) {
    if c == [] then multi
    else if ToLower(c[0]) == "multi" then true
    else if ToLower(c[0]) == "exec" || ToLower(c[0]) == "discard" then false
    else multi
  }

  predicate MultiAfterAll(multi: bool, cs: seq<Command>)
    decreases |cs|
  {
    if cs == [] then multi else MultiAfterAll(MultiAfter(multi, cs[0]), cs[1..])
  }

  /** The commands executed, why the loop ended, and how many bytes follow the last executed command. */
  datatype Replay = Replay(cmds: seq<Command>, stop: Stop, left: nat)

  function LoadFrom(known: Bytes -> bool, s: Bytes, multi: bool): (r: Replay)
    ensures r.left <= |s|
    decreases |s|
  {
    match ReadCommand(s)
    case Halt(why) => Replay([], if why == AtEnd && multi then OpenMulti else why, |s|)
    case Got(c, rest) =>
      if !known(c[0]) then Replay([], UnknownCommand, |s|) else
      var r := LoadFrom(known, rest, MultiAfter(multi, c));
      Replay([c] + r.cmds, r.stop, r.left)
  }

  datatype Outcome =
    | Empty                                          // C_ERR: zero-length file
    | Loaded(cmds: seq<Command>)
    | Truncated(cmds: seq<Command>, size: nat)       // loaded, the file cut to `size`
    | Exit(cmds: seq<Command>, why: Stop)            // the server refuses to start
    | Preamble                                       // an RDB image comes first

  function Load(known: Bytes -> bool, loadTruncated: bool, f: Bytes): Outcome {
    if f == [] then Empty
    else if "REDIS" <= f then Preamble
    else
      var r := LoadFrom(known, f, false);
      if r.stop == AtEnd then Loaded(r.cmds)
      else if (r.stop == OpenMulti || r.stop == CutShort) && loadTruncated then Truncated(r.cmds, |f| - r.left)
      else Exit(r.cmds, r.stop)
  }

  /** One command of a file that does not end here: the header line and the loop over the arguments. */
  method ReadOne(s: Bytes) returns (argv: Command, rest: Bytes, why: Stop)
    requires s != []
    ensures match ReadCommand(s)
            case Got(cmd, tail) => why == AtEnd && argv == cmd && rest == tail
            case Halt(w) => why == w && why != AtEnd
  {
    hide Atoi, ReadBulks, HitEnd;
    argv, rest := [], s;
    var n := LineLen(s, LINE_MAX);
    var line := s[..n];
    if line[0] != '*' {
      return argv, rest, BadFormat;
    }
    if |line| == 1 || line[1] == 0 as char {
      return argv, rest, if HitEnd(line, s) then CutShort else Unreadable;
    }
    var argc := Atoi(line[1..]);
    if argc < 1 {
      return argv, rest, BadFormat;
    }
    argv, rest, why := ReadArguments(s[n..], argc);
  }

  /** loadAppendOnlyFile: the loop over commands. What follows an RDB image is not read. */
  method LoadAppendOnlyFile(known: Bytes -> bool, loadTruncated: bool, f: Bytes) returns (out: Outcome)
    ensures out == Load(known, loadTruncated, f)
    ensures (out.Empty? <==> f == []) && (out.Preamble? <==> "REDIS" <= f)
  {
    if f == [] {
      return Empty;
    }
    if "REDIS" <= f {
      return Preamble;
    }
    hide ReadCommand, MultiAfter;
    NothingToRead();
    var done: seq<Command> := [];
    var rest, multi, validUpTo, stop := f, false, 0, AtEnd;
    ghost var all := LoadFrom(known, f, false);
    while true
      invariant validUpTo == |f| - |rest|
      invariant var r := LoadFrom(known, rest, multi);
                all == Replay(done + r.cmds, r.stop, r.left)
      decreases |rest|
    {
      if rest == [] {
        stop := if multi then OpenMulti else AtEnd;
        break;
      }
      var argv, tail, why := ReadOne(rest);
      if why != AtEnd {
        stop := why;
        break;
      }
      if !known(argv[0]) {
        stop := UnknownCommand;
        break;
      }
      ghost var r := LoadFrom(known, tail, MultiAfter(multi, argv));
      assert done + ([argv] + r.cmds) == (done + [argv]) + r.cmds;
      done, rest, multi := done + [argv], tail, MultiAfter(multi, argv);
      validUpTo := |f| - |rest|;
    }
    assert all == Replay(done, stop, |rest|) by {
      assert done + [] == done;
    }
    if stop == AtEnd {
      out := Loaded(done);
    } else if (stop == OpenMulti || stop == CutShort) && loadTruncated {
      out := Truncated(done, validUpTo);
    } else {
      out := Exit(done, stop);
    }
  }

  lemma NothingToRead()
    ensures ReadCommand([]) == Halt(AtEnd)
  {
  }

  lemma PrependStep(argv: Command, arg: Bytes, p: Piece<Command>)
    ensures Prepend(argv, Prepend([arg], p)) == Prepend(argv + [arg], p)
  {
    assert p.Piece? ==> argv + ([arg] + p.value) == (argv + [arg]) + p.value;
  }

  /** The loop over the arguments of one command; `why` is AtEnd when all were read. */
  method ReadArguments(s: Bytes, argc: nat) returns (argv: Command, rest: Bytes, why: Stop)
    ensures match ReadBulks(s, argc)
            case Piece(args, tail) => why == AtEnd && argv == args && rest == tail
            case Short => why == CutShort
            case Bad => why == BadFormat
  {
    argv, rest, why := [], s, AtEnd;
    var j := 0;
    hide ReadBulk;
    assert ReadBulks(s, argc).Piece? ==> [] + ReadBulks(s, argc).value == ReadBulks(s, argc).value;
    while j < argc
      invariant 0 <= j <= argc
      invariant ReadBulks(s, argc) == Prepend(argv, ReadBulks(rest, argc - j))
    {
      match ReadBulk(rest) {
        case Short => why := CutShort; return;
        case Bad => why := BadFormat; return;
        case Piece(arg, tail) =>
          PrependStep(argv, arg, ReadBulks(tail, argc - j - 1));
          argv, rest := argv + [arg], tail;
      }
      j := j + 1;
    }
    assert argv + [] == argv;
  }
}
