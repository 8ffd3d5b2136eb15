/** The parent's side of the append-only file as it is programmed: the write buffer, the list of 10 MB blocks that
    collects the diff of a rewrite, and the loops that move bytes through write(2). Every method is proved against
    the state machine of the server. */
module AofBuffers {

  import opened Base
  import opened AofFormat
  import opened AofCommands
  import opened AofExpire
  import opened AofReplay
  import opened AofServer

  const AOF_RW_BUF_BLOCK_SIZE := 10 * 1024 * 1024

  /** One answer of write(2); a system that answers no more fails. */
  datatype Answer = Wrote(n: nat) | Interrupted | Error

  /** How many bytes write(2) takes before its first error. */
  function Granted(answers: seq<Answer>): nat {
    if answers == [] || answers[0].Error? then 0
    else (if answers[0].Wrote? then answers[0].n else 0) + Granted(answers[1..])
  }

  /** Short writes and interruptions go on with the next answer; an error ends it, whatever would follow. */
  lemma {:induction false} GrantedUpToError(a: seq<Answer>, b: seq<Answer>)
    requires forall i :: 0 <= i < |a| ==> !a[i].Error?
    ensures Granted(a + b) == Granted(a) + Granted(b)
    ensures Granted(a + [Error] + b) == Granted(a)
    ensures forall n :: Granted(a + [Wrote(n)]) == Granted(a) + n
    decreases |a|
  {
    if a == [] {
      assert a + b == b && a + [Error] + b == [Error] + b;
      forall n ensures Granted(a + [Wrote(n)]) == n {
        assert a + [Wrote(n)] == [Wrote(n)] && [Wrote(n)][1..] == [];
      }
    } else {
      GrantedUpToError(a[1..], b);
      assert (a + b)[1..] == a[1..] + b && (a + [Error] + b)[1..] == a[1..] + [Error] + b;
      forall n ensures Granted(a + [Wrote(n)]) == Granted(a) + n {
        assert (a + [Wrote(n)])[1..] == a[1..] + [Wrote(n)];
      }
    }
  }

  datatype Fsync = Never | EverySecond | Always

  datatype Sync = NoSync | SyncNow | SyncInBackground

  /** How flushAppendOnlyFile ends. */
  datatype FlushEnd = Nothing | Postponed | Exits | Retries | Written(sync: Sync)

  function Joined(blocks: seq<Bytes>): Bytes {
    if blocks == [] then [] else blocks[0] + Joined(blocks[1..])
  }

  lemma {:induction false} JoinedConcat(a: seq<Bytes>, b: seq<Bytes>)
    ensures Joined(a + b) == Joined(a) + Joined(b)
  {
    if a == [] {
      assert a + b == b;
    } else {
      assert (a + b)[0] == a[0] && (a + b)[1..] == a[1..] + b;
      JoinedConcat(a[1..], b);
      Assoc(a[0], Joined(a[1..]), Joined(b));
    }
  }

  lemma JoinedLast(a: seq<Bytes>, x: Bytes)
    ensures Joined(a + [x]) == Joined(a) + x
  {
    JoinedConcat(a, [x]);
    assert [x][1..] == [];
    assert Joined([x]) == x + [];
  }

  /** No block is over full, and only the first and the last are not full. */
  ghost predicate BlocksOk(blocks: seq<Bytes>) {
    && (forall i :: 0 <= i < |blocks| ==> |blocks[i]| <= AOF_RW_BUF_BLOCK_SIZE)
    && (forall i :: 0 < i < |blocks| - 1 ==> |blocks[i]| == AOF_RW_BUF_BLOCK_SIZE)
  }

  method SelectPrefix(selected: Option<nat>, db: nat) returns (text: Bytes)
    ensures text == PrintLog(Fed(selected, db, []))
  {
    assert PrintLog([]) == [];
    hide PrintCommand, PrintLog, Decimal;
    if selected == Some(db) {
      return [];
    }
    var seldb := Decimal(db);
    text := "*2\r\n$6\r\nSELECT\r\n$" + Decimal(|seldb|) + "\r\n" + seldb + "\r\n";
    SelectText(db);
    PrintOne(Select(db));
    assert [Select(db)] + [] == [Select(db)];
  }

  method CatAll(dst: Bytes, cs: seq<Command>) returns (text: Bytes)
    ensures text == dst + PrintLog(cs)
  {
    assert PrintLog([]) == [] && cs[..0] == [] && dst + [] == dst;
    hide PrintCommand, PrintLog;
    text := dst;
    var k := 0;
    while k < |cs|
      invariant 0 <= k <= |cs| && text == dst + PrintLog(cs[..k])
    {
      text := CatAppendOnlyGenericCommand(text, cs[k]);
      PrintOne(cs[k]);
      PrintLogConcat(cs[..k], [cs[k]]);
      Assoc(dst, PrintLog(cs[..k]), PrintCommand(cs[k]));
      assert cs[..k] + [cs[k]] == cs[..k + 1];
      k := k + 1;
    }
    assert cs[..k] == cs;
  }

  /** The text feedAppendOnlyFile appends: a SELECT when the database differs, and the command with its expire made
      absolute; none when its assertion fails. */
  method FeedText(selected: Option<nat>, db: nat, argv: Command, now: Time) returns (text: Option<Bytes>)
    requires Accepted(argv)
    ensures text.None? <==> Trips(argv)
    ensures text.Some? ==> text.value == PrintLog(Fed(selected, db, Translated(argv, now)))
  {
    hide PrintLog, Translated, Accepted, Trips;
    var select := SelectPrefix(selected, db);
    var cs := Translate(argv, now);
    if cs.None? {
      return None;
    }
    var all := CatAll(select, cs.value);
    PrintLogConcat(Fed(selected, db, []), cs.value);
    assert Fed(selected, db, []) + cs.value == Fed(selected, db, cs.value);
    return Some(all);
  }

  /** Every block that holds anything is written in one call, whole. */
  predicate WritesWhole(blocks: seq<Bytes>, answers: seq<Answer>) {
    if blocks == [] then true
    else if blocks[0] == [] then WritesWhole(blocks[1..], answers)
    else && answers != [] && answers[0].Wrote? && answers[0].n >= |blocks[0]|
         && WritesWhole(blocks[1..], answers[1..])
  }

  class Aof {
    var file: Bytes
    var buf: Bytes
    var size: nat
    var selected: Option<nat>
    var mode: Mode
    var child: Option<Child>
    var blocks: seq<Bytes>
    var pipes: Pipes
    var postponedSince: nat
    var fsync: Fsync
    var lastFsync: nat
    var noFsyncOnRewrite: bool

    ghost function View(): State
      reads this
    {
      State(file, buf, size, selected, mode, child, Joined(blocks), pipes)
    }

    /** aofRewriteBufferAppend. A partly sent first block is filled up like any last block: room that sending has
        freed is used again. */
    method RewriteBufferAppend(text: Bytes)
      requires forall i :: 0 <= i < |blocks| ==> |blocks[i]| <= AOF_RW_BUF_BLOCK_SIZE
      modifies this`blocks
      ensures Joined(blocks) == old(Joined(blocks)) + text
      ensures old(BlocksOk(blocks)) ==> BlocksOk(blocks)
      ensures |blocks| >= |old(blocks)|
      ensures forall i :: 0 <= i < |blocks| ==> |blocks[i]| <= AOF_RW_BUF_BLOCK_SIZE
    {
      hide Joined;
      var rest := text;
      while rest != []
        invariant Joined(blocks) + rest == old(Joined(blocks)) + text
        invariant |blocks| >= |old(blocks)|
        invariant forall i :: 0 <= i < |blocks| ==> |blocks[i]| <= AOF_RW_BUF_BLOCK_SIZE
        invariant old(BlocksOk(blocks)) ==> BlocksOk(blocks)
        decreases |rest|, if blocks == [] then 2 else if |blocks[|blocks| - 1]| == AOF_RW_BUF_BLOCK_SIZE then 1 else 0
      {
        if blocks != [] {
          var last := |blocks| - 1;
          var free := AOF_RW_BUF_BLOCK_SIZE - |blocks[last]|;
          var thisLen := Min(free, |rest|);
          if thisLen > 0 {
            FillLast(blocks, rest, thisLen);
            blocks := blocks[last := blocks[last] + rest[..thisLen]];
            rest := rest[thisLen..];
          }
        }
        if rest != [] {
          JoinedLast(blocks, []);
          blocks := blocks + [[]];
        }
      }
    }

    /** aofChildWriteDiffData: sends from the front of the list until told to stop, out of data, or the pipe is
        full; what was sent is what left the blocks. */
    method ChildWriteDiffData(answers: seq<Answer>) returns (ghost sent: nat, ghost used: nat)
      requires child.Some?
      modifies this`blocks, this`pipes
      ensures sent <= |old(Joined(blocks))| && View() == Sent(old(View()), sent)
      // it goes on for as long as write(2) takes bytes: every answer used has moved some, the next would move none
      ensures used <= sent && used <= |answers|
      ensures pipes.stop || blocks == [] || used == |answers| || !answers[used].Wrote? || answers[used].n == 0
    {
      hide Joined;
      sent := 0;
      var k := 0;
      ghost var all := Joined(blocks);
      while true
        invariant k <= |answers| && k <= sent
        invariant sent <= |all| && Joined(blocks) == all[sent..]
        invariant pipes == old(pipes).(data := old(pipes).data + all[..sent])
        invariant pipes.stop ==> sent == 0
        decreases |answers| - k, |blocks|
      {
        if pipes.stop || blocks == [] {
          break;
        }
        var block := blocks[0];
        if |block| > 0 {
          if k == |answers| || !answers[k].Wrote? || answers[k].n == 0 {
            break;
          }
          var n := Min(answers[k].n, |block|);
          k := k + 1;
          SendStep(all, sent, blocks, n);
          Assoc(old(pipes).data, all[..sent], block[..n]);
          pipes := pipes.(data := pipes.data + block[..n]);
          sent := sent + n;
          blocks := blocks[0 := block[n..]];
        }
        if |blocks[0]| == 0 {
          EmptyFront(blocks);
          blocks := blocks[1..];
        }
      }
      used := k;
      assert all[..0] == [] && old(pipes).data + [] == old(pipes).data;
      assert all[0..] == all;
    }

    /** aofRewriteBufferWrite: appends all blocks to the new file, or reports failure. */
    method RewriteBufferWrite(target: Bytes, answers: seq<Answer>) returns (count: int, result: Bytes)
      ensures count >= 0 <==> WritesWhole(blocks, answers)
      ensures count >= 0 ==> result == target + Joined(blocks) && count == |Joined(blocks)|
      ensures count < 0 ==> count == -1 && exists n :: 0 <= n <= |Joined(blocks)| && result == target + Joined(blocks)[..n]
    {
      count, result := 0, target;
      var i, k := 0, 0;
      assert blocks[..0] == [] && blocks[0..] == blocks && answers[0..] == answers;
      while i < |blocks|
        invariant 0 <= i <= |blocks| && k <= |answers|
        invariant result == target + Joined(blocks[..i]) && count == |Joined(blocks[..i])|
        invariant WritesWhole(blocks, answers) <==> WritesWhole(blocks[i..], answers[k..])
      {
        assert blocks[i..][1..] == blocks[i + 1..];
        assert k < |answers| ==> answers[k..][1..] == answers[k + 1..];
        assert blocks[..i + 1] == blocks[..i] + [blocks[i]];
        JoinedLast(blocks[..i], blocks[i]);
        ghost var rest := blocks[i + 1..];
        assert blocks == blocks[..i + 1] + rest;
        JoinedConcat(blocks[..i + 1], rest);
        if |blocks[i]| > 0 {
          var n := if k < |answers| && answers[k].Wrote? then Min(answers[k].n, |blocks[i]|) else 0;
          k := if k < |answers| then k + 1 else k;
          ghost var m := |Joined(blocks[..i])| + n;
          assert Joined(blocks)[..m] == Joined(blocks[..i]) + blocks[i][..n];
          result := result + blocks[i][..n];
          if n != |blocks[i]| {
            assert 0 <= m <= |Joined(blocks)| && result == target + Joined(blocks)[..m];
            return -1, result;
          }
          count := count + n;
        }
        i := i + 1;
      }
      assert blocks[..i] == blocks;
    }

    /** aofWrite: retries after interruptions and short writes, so a short result means an error. */
    method AofWrite(text: Bytes, answers: seq<Answer>) returns (n: int)
      modifies this`file
      ensures n == if text != [] && Granted(answers) == 0 then -1 else Min(|text|, Granted(answers))
      ensures file == old(file) + if n == -1 then [] else text[..n]
    {
      var written, k := 0, 0;
      assert answers[0..] == answers;
      while written < |text|
        invariant 0 <= written <= |text| && k <= |answers|
        invariant file == old(file) + text[..written]
        invariant Min(|text|, Granted(answers)) == Min(|text|, written + Granted(answers[k..]))
        invariant Granted(answers) == 0 ==> written == 0
        decreases |text| - written, |answers| - k
      {
        if k == |answers| || answers[k].Error? {
          return if written > 0 then written else -1;
        }
        assert answers[k..][1..] == answers[k + 1..];
        if answers[k].Wrote? {
          var m := Min(answers[k].n, |text| - written);
          assert text[..written] + text[written..written + m] == text[..written + m];
          file := file + text[written..written + m];
          written := written + m;
        }
        k := k + 1;
      }
      return written;
    }

    ghost predicate Waits(force: bool, now: nat, syncing: bool)
      reads this
    {
      fsync == EverySecond && !force && syncing && (postponedSince == 0 || now - postponedSince < 2)
    }

    /** The policy asks for an fsync now; no-appendfsync-on-rewrite holds it back while a child writes. */
    ghost predicate SyncDue(now: nat, otherChild: bool)
      reads this`noFsyncOnRewrite, this`child, this`fsync, this`lastFsync
    {
      && !(noFsyncOnRewrite && (child.Some? || otherChild))
      && (fsync == Always || (fsync == EverySecond && now > lastFsync))
    }

    /** Where it is done: at once with the policy "always", else in the background unless one is under way. */
    ghost function SyncFor(now: nat, syncing: bool, otherChild: bool): Sync
      reads this`noFsyncOnRewrite, this`child, this`fsync, this`lastFsync
    {
      if !SyncDue(now, otherChild) then NoSync else if fsync == Always then SyncNow
      else if syncing then NoSync else SyncInBackground
    }

    /** The fsync that follows a complete write. */
    method SyncAfterWrite(now: nat, syncing: bool, otherChild: bool) returns (sync: Sync)
      modifies this`lastFsync
      ensures sync == old(SyncFor(now, syncing, otherChild))
      ensures lastFsync == if old(SyncDue(now, otherChild)) then now else old(lastFsync)
    {
      if noFsyncOnRewrite && (child.Some? || otherChild) {
        return NoSync;
      }
      sync := NoSync;
      if fsync == Always {
        sync := SyncNow;
        lastFsync := now;
      } else if fsync == EverySecond && now > lastFsync {
        if !syncing {
          sync := SyncInBackground;
        }
        lastFsync := now;
      }
    }

    /** The write of flushAppendOnlyFile and what it does about a short one; with the policy "always" the server exits
        instead. */
    method WriteBuffer(answers: seq<Answer>, canTruncate: bool) returns (whole: bool, ghost w: Write)
      requires buf != []
      modifies this`file, this`buf, this`size
      ensures whole <==> Granted(answers) >= |old(buf)|
      ensures whole <==> w == Full
      ensures whole || fsync != Always ==> View() == Flushed(old(View()), w)
      ensures file == Flushed(old(View()), w).file
    {
      var n := AofWrite(buf, answers);
      if n == |buf| {
        assert buf[..n] == buf;
        size := size + n;
        buf := [];
        return true, Full;
      }
      w := Failed;
      if n == -1 {
        assert old(file) + [] == old(file);
      } else {
        w := Partial(n, canTruncate);
        if canTruncate {
          file := Resized(file, size);
        }
      }
      if fsync != Always && n > 0 && !canTruncate {
        size := size + n;
        buf := buf[n..];
      }
      return false, w;
    }

    /** flushAppendOnlyFile: postponed for at most two seconds, or one flush of the state machine. With the policy
        "always" the server exits on a write error, and otherwise everything is written and synchronised. */
    method FlushAppendOnlyFile(force: bool, now: nat, syncing: bool, answers: seq<Answer>, canTruncate: bool, otherChild: bool)
      returns (end: FlushEnd, ghost w: Write)
      modifies this`file, this`buf, this`size, this`postponedSince, this`lastFsync
      ensures end.Nothing? <==> old(buf) == []
      ensures end.Postponed? <==> old(buf) != [] && old(Waits(force, now, syncing))
      ensures end.Exits? || end.Retries? <==> old(buf) != [] && !old(Waits(force, now, syncing)) && Granted(answers) < |old(buf)|
      ensures end.Exits? ==> fsync == Always && file == Flushed(old(View()), w).file
      ensures end.Retries? ==> fsync != Always && w != Full
      ensures !end.Exits? ==> View() == if end.Postponed? then old(View()) else Flushed(old(View()), w)
      ensures end.Written? ==> w == Full && buf == []
      ensures fsync == Always && !end.Exits? ==> file == old(file) + old(buf) && buf == []
      // the fsync that follows a complete write, and the two clocks
      ensures end.Written? ==> end.sync == old(SyncFor(now, syncing, otherChild))
      ensures lastFsync == if end.Written? && old(SyncDue(now, otherChild)) then now else old(lastFsync)
      ensures postponedSince == match end
                                case Nothing => old(postponedSince)
                                case Postponed => if old(postponedSince) == 0 then now else old(postponedSince)
                                case _ => 0
    {
      hide Granted, SyncFor, SyncDue, Joined;
      w := Failed;
      if buf == [] {
        assert file + [] == file;
        return Nothing, w;
      }
      if fsync == EverySecond && !force && syncing {
        if postponedSince == 0 {
          postponedSince := now;
          return Postponed, w;
        } else if now - postponedSince < 2 {
          return Postponed, w;
        }
      }
      var whole;
      whole, w := WriteBuffer(answers, canTruncate);
      postponedSince := 0;
      if !whole {
        return if fsync == Always then Exits else Retries, w;
      }
      var sync := SyncAfterWrite(now, syncing, otherChild);
      return Written(sync), w;
    }

    /** feedAppendOnlyFile: one more command for the log and, during a rewrite, for the diff. The server stops when the
        assertion on the options of SET fails. */
    method FeedAppendOnlyFile(db: nat, argv: Command, now: Time) returns (alive: bool)
      requires Accepted(argv) && mode != Off && forall i :: 0 <= i < |blocks| ==> |blocks[i]| <= AOF_RW_BUF_BLOCK_SIZE
      modifies this`selected, this`buf, this`blocks
      ensures alive <==> !Trips(argv)
      ensures alive ==> View() == Executed(old(View()), db, Translated(argv, now))
      ensures !alive ==> buf == old(buf) && blocks == old(blocks)
      ensures old(BlocksOk(blocks)) ==> BlocksOk(blocks)
    {
      hide PrintLog, Joined, Fed, Translated, Trips, Accepted;
      var text := FeedText(selected, db, argv, now);
      selected := Some(db);
      if text.None? {
        return false;
      }
      if mode == On {
        buf := buf + text.value;
      }
      if child.Some? {
        RewriteBufferAppend(text.value);
      }
      return true;
    }
  }

  /** Filling the last block moves bytes from the rest to the blocks. */
  lemma FillLast(blocks: seq<Bytes>, rest: Bytes, n: nat)
    requires blocks != [] && n <= |rest|
    ensures var last := |blocks| - 1;
            Joined(blocks[last := blocks[last] + rest[..n]]) + rest[n..] == Joined(blocks) + rest
  {
    hide Joined;
    var last := |blocks| - 1;
    var blocks' := blocks[last := blocks[last] + rest[..n]];
    assert blocks == blocks[..last] + [blocks[last]];
    assert blocks' == blocks[..last] + [blocks[last] + rest[..n]];
    JoinedLast(blocks[..last], blocks[last]);
    JoinedLast(blocks[..last], blocks[last] + rest[..n]);
    assert rest == rest[..n] + rest[n..];
  }

  /** The SELECT that is printed by hand is the command printed like any other. */
  lemma SelectText(db: nat)
    ensures PrintCommand(Select(db)) ==
            "*2\r\n$6\r\nSELECT\r\n$" + Decimal(|Decimal(db)|) + "\r\n" + Decimal(db) + "\r\n"
  {
    var d := Decimal(db);
    SelectHeader();
    hide Decimal;
    assert Select(db)[1..] == [d] && [d][1..] == [];
    assert Bulks([d]) == Bulk(d) + [];
    JoinText("*" + Decimal(2) + CRLF, Bulk("SELECT"), Decimal(|d|), d);
  }

  lemma SelectHeader()
    ensures ("*" + Decimal(2) + CRLF) + Bulk("SELECT") + "$" == "*2\r\n$6\r\nSELECT\r\n$"
  {
    assert Decimal(2) == "2" && Decimal(6) == "6";
    assert Bulk("SELECT") == "$6\r\nSELECT\r\n";
  }

  lemma JoinText(header: Bytes, bulk: Bytes, len: Bytes, d: Bytes)
    ensures header + (bulk + ("$" + len + CRLF + d + CRLF)) == (header + bulk + "$") + len + "\r\n" + d + "\r\n"
  {
  }

  lemma EmptyFront(blocks: seq<Bytes>)
    requires blocks != [] && blocks[0] == []
    ensures Joined(blocks[1..]) == Joined(blocks)
  {
    assert [] + Joined(blocks[1..]) == Joined(blocks[1..]);
  }

  /** Sending from the front of the list: what was sent and what is left are still the whole. */
  lemma SendStep(all: Bytes, sent: nat, blocks: seq<Bytes>, n: nat)
    requires sent <= |all| && Joined(blocks) == all[sent..] && blocks != [] && n <= |blocks[0]|
    ensures sent + n <= |all| && all[..sent] + blocks[0][..n] == all[..sent + n]
    ensures Joined(blocks[0 := blocks[0][n..]]) == all[sent + n..]
  {
    assert blocks[0 := blocks[0][n..]][1..] == blocks[1..];
    assert all[sent..][..n] == blocks[0][..n];
    assert all[sent..][n..] == all[sent + n..];
  }
}
