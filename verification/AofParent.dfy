/**
 The server side of the append only file: the log buffer and its flush, the buffer of differences kept
 while a child rewrites the file, and the switch to the rewritten file.
 */
module AofParent {
  import opened Bytes
  import opened AofCommand

  datatype AofState = On | WaitRewrite

  /** One block of the rewrite buffer: the bytes in use and the room left behind them. */
  datatype Block = Block(data: seq<Byte>, free: nat)

  const BLOCK_SIZE := 1024 * 1024 * 10

  function Flatten(blocks: seq<Block>): seq<Byte> {
    if blocks == [] then [] else Flatten(blocks[..|blocks| - 1]) + blocks[|blocks| - 1].data
  }

  /** What the server knows; `pending` is what the rewrite buffer holds, `file` what the file holds. */
  datatype Parent = Parent(
    state: AofState,
    selected: int,
    buf: seq<Byte>,
    file: seq<Byte>,
    postponed: int,
    writeOk: bool,
    child: bool,
    pending: seq<Byte>,
    stop: bool)

  // ----- Feeding

  const BANG: Byte := 33
  const SELECT: Arg := [83, 69, 76, 69, 67, 84]

  function SelectCommand(db: nat): Command { [SELECT, Dec(db)] }

  /** The commands one call of feedAppendOnlyFile logs. */
  function Logged(selected: int, db: nat, argv: Command): seq<Command> {
    if db != selected then [SelectCommand(db), argv] else [argv]
  }

  function Feed(p: Parent, db: nat, argv: Command): Parent {
    var bytes := EncodeLog(Logged(p.selected, db, argv));
    p.(selected := db,
       buf := if p.state.On? then p.buf + bytes else p.buf,
       pending := if p.child then p.pending + bytes else p.pending)
  }

  // ----- Flushing

  datatype Policy = Always | EverySec | No

  /** What the world does during one flush: bytes written (or -1), and whether ftruncate works. */
  datatype World = World(policy: Policy, force: bool, now: int, syncing: bool, written: int, truncates: bool)

  datatype Flushed = Kept | Postponed | Tried | Exited

  predicate Postpones(p: Parent, w: World) {
    w.policy.EverySec? && !w.force && w.syncing && (p.postponed == 0 || w.now - p.postponed < 2)
  }

  /** flushAppendOnlyFile. */
  function Flush(p: Parent, w: World): (Parent, Flushed)
    requires -1 <= w.written <= |p.buf|
  {
    if p.buf == [] then (p, Kept)
    else if Postpones(p, w) then (p.(postponed := if p.postponed == 0 then w.now else p.postponed), Postponed)
    else if w.written == |p.buf| then (p.(postponed := 0, file := p.file + p.buf, buf := [], writeOk := true), Tried)
    else
      var stays := if w.written >= 0 && !w.truncates then w.written else 0;
      var q := p.(postponed := 0, file := p.file + p.buf[..stays]);
      if w.policy.Always? then (q, Exited)
      else (q.(buf := p.buf[stays..], writeOk := false), Tried)
  }

  // ----- Rewriting

  /** rewriteAppendOnlyFileBackground once it has forked: the next feed is to start with a SELECT. */
  function Fork(p: Parent): Parent { p.(child := true, stop := false, selected := -1) }

  /** backgroundRewriteDoneHandler when everything worked: tmp is what the child left. */
  function Switch(p: Parent, tmp: seq<Byte>): Parent {
    p.(state := On, selected := -1, file := tmp + p.pending, buf := [], child := false, pending := [])
  }

  function Abandon(p: Parent): Parent { p.(child := false, pending := []) }

  class AppendOnly {
    var state: AofState
    var selectedDb: int
    var aofBuf: seq<Byte>
    var file: seq<Byte>
    var currentSize: nat
    var postponedStart: int
    var lastWriteOk: bool
    var childRunning: bool
    var blocks: seq<Block>
    var stopSendingDiff: bool

    /** Blocks never overrun, and aof_current_size is the length of the file. */
    ghost predicate Valid()
      reads this
    {
      currentSize == |file| && forall i :: 0 <= i < |blocks| ==> |blocks[i].data| + blocks[i].free <= BLOCK_SIZE
    }

    ghost function P(): Parent
      reads this
    {
      Parent(state, selectedDb, aofBuf, file, postponedStart, lastWriteOk, childRunning, Flatten(blocks), stopSendingDiff)
    }

    /** aofRewriteBufferAppend. */
    method RewriteBufferAppend(s: seq<Byte>)
      requires Valid()
      modifies this`blocks
      ensures Valid() && Flatten(blocks) == old(Flatten(blocks)) + s
    {
      var rest := s;
      while |rest| > 0
        invariant Valid() && Flatten(blocks) + rest == old(Flatten(blocks)) + s
        decreases |rest|, if |blocks| > 0 then BLOCK_SIZE - blocks[|blocks| - 1].free else BLOCK_SIZE + 1
      {
        if |blocks| > 0 {
          var block := blocks[|blocks| - 1];
          var thislen := if block.free < |rest| then block.free else |rest|;
          if thislen > 0 { rest := FillLast(thislen, rest); }
        }
        if |rest| > 0 {
          ghost var before := blocks;
          blocks := blocks + [Block([], BLOCK_SIZE)];
          assert blocks[..|blocks| - 1] == before;
        }
      }
    }

    /** The last block takes the first n bytes. */
    method FillLast(n: nat, s: seq<Byte>) returns (rest: seq<Byte>)
      requires Valid() && |blocks| > 0 && n <= |s| && n <= blocks[|blocks| - 1].free
      modifies this`blocks
      ensures Valid() && |blocks| == |old(blocks)| && rest == s[n..]
      ensures blocks[|blocks| - 1].free == old(blocks[|blocks| - 1].free) - n
      ensures Flatten(blocks) + rest == old(Flatten(blocks)) + s
    {
      hide Flatten;
      ghost var before := blocks;
      var block := blocks[|blocks| - 1];
      rest := s[n..];
      blocks := blocks[..|blocks| - 1] + [Block(block.data + s[..n], block.free - n)];
      FlattenLast(before);
      FlattenLast(blocks);
      assert blocks[..|blocks| - 1] == before[..|before| - 1];
      assert s == s[..n] + s[n..];
    }

    /** Drops n bytes from the first block: the memmove of line 116. */
    method DropFromFirst(n: nat) returns (dropped: seq<Byte>)
      requires Valid() && |blocks| > 0 && n <= |blocks[0].data|
      modifies this`blocks
      ensures Valid() && old(Flatten(blocks)) == dropped + Flatten(blocks)
      ensures |blocks| == |old(blocks)| && blocks[0].data == old(blocks[0].data)[n..]
    {
      var block := blocks[0];
      FlattenFront(blocks);
      dropped := block.data[..n];
      ghost var rest := Flatten(blocks[1..]);
      blocks := [Block(block.data[n..], block.free)] + blocks[1..];
      FlattenFront(blocks);
      assert Flatten(blocks) == block.data[n..] + rest;
      Resplit(block.data, n, rest);
    }

    /**
     aofChildWriteDiffData; `accepts` is what the successive write calls return.  The bytes sent come off the
     front of the buffer, and none are sent once the child has asked for the end.
     */
    method ChildWriteDiffData(accepts: seq<int>) returns (sent: seq<Byte>)
      requires Valid()
      modifies this`blocks
      ensures Valid() && old(Flatten(blocks)) == sent + Flatten(blocks)
      ensures stopSendingDiff ==> sent == []
    {
      hide Flatten;
      sent := [];
      var calls := 0;
      while !stopSendingDiff && |blocks| > 0
        invariant Valid() && 0 <= calls <= |accepts| && old(Flatten(blocks)) == sent + Flatten(blocks)
        invariant stopSendingDiff ==> sent == []
        decreases |accepts| - calls, |blocks|
      {
        if |blocks[0].data| > 0 {
          if calls == |accepts| || accepts[calls] <= 0 { return; }
          var nwritten := if accepts[calls] < |blocks[0].data| then accepts[calls] else |blocks[0].data|;
          calls := calls + 1;
          ghost var before := sent;
          var dropped := DropFromFirst(nwritten);
          sent := sent + dropped;
          assert before + (dropped + Flatten(blocks)) == sent + Flatten(blocks);
        }
        if |blocks[0].data| == 0 {
          FlattenFront(blocks);
          assert [] + Flatten(blocks[1..]) == Flatten(blocks[1..]);
          blocks := blocks[1..];
        }
      }
    }

    /** aofRewriteBufferWrite; `works` tells how many of the block writes are complete. */
    method RewriteBufferWrite(works: nat) returns (ok: bool, written: seq<Byte>)
      requires Valid()
      ensures ok ==> written == Flatten(blocks)
      ensures works >= |blocks| ==> ok
    {
      written := [];
      var i := 0;
      while i < |blocks|
        invariant 0 <= i <= |blocks| && written == Flatten(blocks[..i])
      {
        assert blocks[..i + 1][..i] == blocks[..i];
        if |blocks[i].data| > 0 && i >= works { return false, written; }
        written := written + blocks[i].data;
        i := i + 1;
      }
      assert blocks[..i] == blocks;
      return true, written;
    }

    /** feedAppendOnlyFile for a command that needs no translation. */
    method FeedAppendOnlyFile(db: nat, argv: Command)
      requires Valid()
      modifies this`selectedDb, this`aofBuf, this`blocks
      ensures Valid() && P() == Feed(old(P()), db, argv)
    {
      hide EncodeCommand;
      var buf := [];
      if db != selectedDb {
        buf := SelectText(db);
        selectedDb := db;
      }
      buf := CatAppendOnlyGenericCommand(buf, argv);
      LoggedBytes(old(selectedDb), db, argv);
      if state.On? { aofBuf := aofBuf + buf; }
      if childRunning { RewriteBufferAppend(buf); }
    }

    /** flushAppendOnlyFile; unless the server exits, aof_current_size is still the length of the file. */
    method FlushAppendOnlyFile(w: World) returns (r: Flushed)
      requires Valid() && -1 <= w.written <= |aofBuf|
      modifies this
      ensures (P(), r) == Flush(old(P()), w) && (r.Exited? || Valid())
    {
      if |aofBuf| == 0 { return Kept; }
      if w.policy.EverySec? && !w.force {
        if w.syncing {
          if postponedStart == 0 {
            postponedStart := w.now;
            return Postponed;
          } else if w.now - postponedStart < 2 {
            return Postponed;
          }
        }
      }
      ghost var f := file;
      var nwritten := w.written;
      var put := aofBuf[..if nwritten > 0 then nwritten else 0];
      file := file + put;
      postponedStart := 0;
      if nwritten != |aofBuf| {
        if nwritten != -1 && w.truncates {
          assert file[..currentSize] == f == f + aofBuf[..0];
          file := file[..currentSize];
          nwritten := -1;
        }
        if w.policy.Always? { return Exited; }
        lastWriteOk := false;
        if nwritten > 0 {
          currentSize := currentSize + nwritten;
          aofBuf := aofBuf[nwritten..];
        } else {
          assert aofBuf[0..] == aofBuf;
        }
        return Tried;
      }
      assert put == aofBuf;
      lastWriteOk := true;
      currentSize := currentSize + nwritten;
      aofBuf := [];
      return Tried;
    }

    /** aofChildPipeReadable; `read` is what read(2) gave, and `acks` whether a '!' is written in answer. */
    method ChildPipeReadable(read: seq<Byte>) returns (acks: bool)
      requires Valid()
      modifies this`stopSendingDiff
      ensures Valid() && P() == (if acks then old(P()).(stop := true) else old(P())) && (acks <==> read == [BANG])
    {
      acks := false;
      if |read| == 1 && read[0] == BANG {
        stopSendingDiff := true;
        acks := true;
      }
    }

    /** rewriteAppendOnlyFileBackground, in the parent; `pipes` and `forks` tell whether those calls work. */
    method RewriteBackground(rdbChild: bool, pipes: bool, forks: bool) returns (ok: bool)
      requires Valid()
      modifies this`childRunning, this`stopSendingDiff, this`selectedDb
      ensures Valid() && (ok <==> !old(childRunning) && !rdbChild && pipes && forks)
      ensures P() == if ok then Fork(old(P()))
                     else if old(childRunning) || rdbChild || !pipes then old(P())
                     else old(P()).(stop := false)
    {
      if childRunning || rdbChild { return false; }
      if !pipes { return false; }
      stopSendingDiff := false;
      if !forks { return false; }
      childRunning, selectedDb := true, -1;
      return true;
    }

    /** backgroundRewriteDoneHandler; tmp is the child's file when it exited cleanly. */
    method RewriteDone(tmp: seq<Byte>, exitedCleanly: bool, opens: bool, works: nat, renames: bool) returns (switched: bool)
      requires Valid() && childRunning
      modifies this
      ensures Valid() && P() == if switched then Switch(old(P()), tmp) else Abandon(old(P()))
      ensures switched ==> exitedCleanly && opens && renames
      ensures exitedCleanly && opens && renames && works >= |old(blocks)| ==> switched
    {
      switched := false;
      if exitedCleanly && opens {
        var ok, written := RewriteBufferWrite(works);
        if ok && renames {
          switched := true;
          file := tmp + written;
          currentSize := |file|;
          selectedDb, aofBuf, state := -1, [], On;
        }
      }
      blocks, childRunning := [], false;
    }
  }

  lemma Resplit(a: seq<Byte>, n: nat, b: seq<Byte>)
    requires n <= |a|
    ensures a + b == a[..n] + (a[n..] + b)
  {
  }

  lemma {:induction false} FlattenFront(blocks: seq<Block>)
    requires blocks != []
    ensures Flatten(blocks) == blocks[0].data + Flatten(blocks[1..])
    decreases |blocks|
  {
    hide Flatten;
    FlattenLast(blocks);
    var init, last := blocks[..|blocks| - 1], blocks[|blocks| - 1];
    if init != [] {
      FlattenFront(init);
      FlattenLast(blocks[1..]);
      assert blocks[1..][..|blocks| - 2] == init[1..];
      assert (init[0].data + Flatten(init[1..])) + last.data == init[0].data + (Flatten(init[1..]) + last.data);
    } else {
      assert blocks[1..] == [];
      FlattenNone();
    }
  }

  lemma FlattenLast(blocks: seq<Block>)
    requires blocks != []
    ensures Flatten(blocks) == Flatten(blocks[..|blocks| - 1]) + blocks[|blocks| - 1].data
  {
  }

  lemma FlattenNone()
    ensures Flatten([]) == []
  {
  }

  /** The text that line 521 prints for a database number. */
  function SelectText(db: nat): seq<Byte> {
    [STAR, 50] + CRLF + [DOLLAR, 54] + CRLF + SELECT + CRLF + [DOLLAR] + Dec(|Dec(db)|) + CRLF + Dec(db) + CRLF
  }

  /** It is the SELECT command as the generic writer would print it. */
  lemma SelectTextEncodes(db: nat)
    ensures SelectText(db) == EncodeCommand(SelectCommand(db))
  {
    var argv := SelectCommand(db);
    assert Dec(2) == [50] && Dec(6) == [54];
    assert argv[..1] == [SELECT];
    assert EncodeArgs([SELECT]) == EncodeArgs([]) + EncodeArg(SELECT);
    assert EncodeArgs(argv) == EncodeArg(SELECT) + EncodeArg(Dec(db));
  }

  lemma LoggedBytes(selected: int, db: nat, argv: Command)
    ensures EncodeLog(Logged(selected, db, argv)) ==
      (if db != selected then SelectText(db) else []) + EncodeCommand(argv)
  {
    hide EncodeCommand, SelectText;
    var sel := SelectCommand(db);
    SelectTextEncodes(db);
    assert [sel, argv][..1] == [sel];
    assert EncodeLog([sel]) == EncodeCommand(sel);
    assert EncodeLog([argv]) == EncodeCommand(argv);
  }

  // ----- Two laws of the flush

  /** Unless the server exits, no byte of the log is lost, repeated or reordered. */
  lemma FlushConserves(p: Parent, w: World)
    requires -1 <= w.written <= |p.buf|
    ensures !Flush(p, w).1.Exited? ==> Flush(p, w).0.file + Flush(p, w).0.buf == p.file + p.buf
    ensures Flush(p, w).0.file <= p.file + p.buf
  {
    var stays := if w.written >= 0 && !w.truncates then w.written else 0;
    Moved(p.file, p.buf, stays);
    assert p.file <= p.file + p.buf && p.file + p.buf + [] == p.file + p.buf;
  }

  lemma Moved(f: seq<Byte>, b: seq<Byte>, n: nat)
    requires n <= |b|
    ensures f + b[..n] + b[n..] == f + b && f + b[..n] <= f + b
  {
    assert b == b[..n] + b[n..];
  }

  /** The server exits exactly when a write under the always policy is not complete. */
  lemma ExitsExactly(p: Parent, w: World)
    requires -1 <= w.written <= |p.buf| && p.buf != []
    ensures Flush(p, w).1.Exited? <==> w.policy.Always? && w.written != |p.buf|
  {
  }

  /** After an attempt the last write counts as good exactly when nothing is left to write. */
  lemma GoodWhenEmpty(p: Parent, w: World)
    requires -1 <= w.written <= |p.buf| && p.buf != [] && Flush(p, w).1.Tried?
    ensures Flush(p, w).0.writeOk <==> Flush(p, w).0.buf == []
    ensures Flush(p, w).0.buf == [] <==> w.written == |p.buf|
  {
  }

  /** The file is what it was, or has grown by what was written; a short write stays only when it cannot be undone. */
  lemma FileGrows(p: Parent, w: World)
    requires -1 <= w.written <= |p.buf|
    ensures var f := Flush(p, w).0.file;
      f == p.file || (0 <= w.written && f == p.file + p.buf[..w.written] && (w.written == |p.buf| || !w.truncates))
  {
    assert p.file + [] == p.file;
  }

  // ----- How long a flush is put off

  predicate Attempt(r: Flushed) { r.Tried? || r.Exited? }

  /** Any flushes in a row, with their outcomes; what happens between two of them leaves the field alone. */
  ghost predicate FlushRun(before: seq<Parent>, ws: seq<World>, rs: seq<Flushed>) {
    && |before| == |ws| == |rs|
    && (forall i :: 0 <= i < |ws| ==>
          -1 <= ws[i].written <= |before[i].buf| && ws[i].now > 0 && rs[i] == Flush(before[i], ws[i]).1)
    && (forall i :: 0 < i < |ws| ==> before[i].postponed == Flush(before[i - 1], ws[i - 1]).0.postponed)
    && (ws != [] ==> before[0].postponed == 0)
  }

  /** Flush j was put off, and no write has been attempted from then until flush i. */
  predicate Pending(rs: seq<Flushed>, j: nat, i: nat) {
    j < i <= |rs| && rs[j].Postponed? && forall m :: j <= m < i ==> !Attempt(rs[m])
  }

  /** Flush j is the first one put off since the last attempt. */
  ghost predicate FirstPending(rs: seq<Flushed>, j: nat, i: nat) {
    Pending(rs, j, i) && forall m: nat :: Pending(rs, m, i) ==> j <= m
  }

  /** The field is the time of the first postponement since the last attempt, or zero when there is none. */
  lemma {:induction false} FieldIsFirst(before: seq<Parent>, ws: seq<World>, rs: seq<Flushed>, i: nat)
    requires FlushRun(before, ws, rs) && i < |ws|
    ensures if before[i].postponed == 0 then forall j: nat :: !Pending(rs, j, i)
            else exists j: nat :: FirstPending(rs, j, i) && before[i].postponed == ws[j].now
    decreases i
  {
    if i > 0 {
      var k := i - 1;
      FieldIsFirst(before, ws, rs, k);
      assert forall j: nat :: Pending(rs, j, i) <==> !Attempt(rs[k]) && (Pending(rs, j, k) || (j == k && rs[k].Postponed?));
      if before[i].postponed != 0 {
        if before[k].postponed == 0 {
          assert FirstPending(rs, k, i);
        } else {
          var j: nat :| FirstPending(rs, j, k) && before[k].postponed == ws[j].now;
          assert FirstPending(rs, j, i);
        }
      }
    }
  }

  /**
   In any run of flushes: one with something to write is put off exactly when it is under everysec, not forced, an
   fsync is running, and less than two seconds have gone by since the first one put off after the last attempt.
   */
  lemma PostponedBriefly(before: seq<Parent>, ws: seq<World>, rs: seq<Flushed>, i: nat)
    requires FlushRun(before, ws, rs) && i < |ws| && before[i].buf != []
    ensures rs[i].Postponed? <==>
      && ws[i].policy.EverySec? && !ws[i].force && ws[i].syncing
      && forall j: nat :: FirstPending(rs, j, i) ==> ws[i].now - ws[j].now < 2
    ensures !rs[i].Postponed? ==> Attempt(rs[i])
  {
    FieldIsFirst(before, ws, rs, i);
    if before[i].postponed != 0 {
      var j: nat :| FirstPending(rs, j, i) && before[i].postponed == ws[j].now;
      assert forall m: nat :: FirstPending(rs, m, i) ==> m == j;
    }
  }
}
