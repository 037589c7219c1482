/** redisReader: the parser with its buffer, cursor and task array updated in place, proved to run RespParser. */
module RespReader {
  import opened Optional
  import opened Bytes
  import opened RespParser

  /** seekNewline; the byte behind the buffer is the NUL that ends every sds string. */
  method SeekNewline(s: seq<Byte>) returns (p: int)
    ensures p == Seek(s, 0)
  {
    var pos, last := 0, |s| - 1;
    SeekSkips(s, 0, 0);
    while pos < last
      invariant 0 <= pos && (pos <= |s| ==> Seek(s, 0) == Seek(s, pos))
      invariant pos <= |s|
    {
      ghost var from := pos;
      while pos < last && s[pos] != CR
        invariant from <= pos <= last && forall k :: from <= k < pos ==> s[k] != CR
      {
        pos := pos + 1;
      }
      SeekSkips(s, from, pos);
      if s[pos] != CR {
        SeekEnds(s, pos);
        return -1;
      }
      if pos + 1 < |s| && s[pos + 1] == LF { return pos; }
      pos := pos + 1;
      SeekSkips(s, pos - 1, pos);
    }
    SeekEnds(s, pos);
    return -1;
  }

  lemma {:induction false} SeekSkips(s: seq<Byte>, i: nat, j: nat)
    requires i <= j <= |s|
    requires forall k :: i <= k < j ==> !(s[k] == CR && k + 1 < |s| && s[k + 1] == LF)
    ensures Seek(s, i) == Seek(s, j)
    decreases j - i
  {
    if i < j { SeekSkips(s, i + 1, j); }
  }

  lemma SeekEnds(s: seq<Byte>, i: nat)
    requires i <= |s| && |s| - 1 <= i
    ensures Seek(s, i) == -1
  {
  }

  /** readLongLong on a line; it stops at the first CR, or at the one that ends the line. */
  method ReadLongLong(line: seq<Byte>) returns (r: int)
    ensures r == ReadNumber(line)
  {
    var v: int, mult: int, i: int := 0, 1, 0;
    if |line| > 0 && line[0] == MINUS {
      mult, i := -1, 1;
    } else if |line| > 0 && line[0] == PLUS {
      i := 1;
    }
    ghost var start := i;
    assert line[0..] == line;
    while i < |line| && line[i] != CR
      invariant start <= i <= |line| && v >= 0 && Digits(line[start..], 0) == Digits(line[i..], v)
    {
      if !IsDigit(line[i]) { return -1; }
      v := v * 10 + (line[i] - 48);
      i := i + 1;
    }
    return mult * v;
  }

  class Reader {
    var err: Option<Failure>
    var buf: seq<Byte>
    var pos: nat
    const rstack: array<Task>
    var ridx: int
    var reply: Option<Reply>

    ghost predicate Valid()
      reads this, rstack
    {
      && rstack.Length == MAX_DEPTH && -1 <= ridx < MAX_DEPTH && pos <= |buf|
      && (err.Some? ==> ridx == -1 && buf == []) && reply.None?
      && StackOk(Stack()) && (ridx == 8 ==> !rstack[8].kind.KArray?)
    }

    /** The tasks in use. */
    ghost function Stack(): seq<Task>
      reads this, rstack
      requires rstack.Length == MAX_DEPTH && -1 <= ridx < MAX_DEPTH
    {
      rstack[..ridx + 1]
    }

    /** The bytes not yet consumed. */
    ghost function Input(): seq<Byte>
      reads this
      requires pos <= |buf|
    {
      buf[pos..]
    }

    constructor ()
      ensures Valid() && fresh(rstack) && Stack() == [] && Input() == [] && err.None?
    {
      err, buf, pos, ridx, reply := None, [], 0, -1, None;
      rstack := new Task[MAX_DEPTH](_ => ROOT);
    }

    /** redisReaderFeed. */
    method Feed(chunk: seq<Byte>) returns (ok: bool)
      requires Valid()
      modifies this`buf
      ensures Valid() && Stack() == old(Stack())
      ensures ok == err.None? && Input() == if ok then old(Input()) + chunk else old(Input())
    {
      if err.Some? { return false; }
      if |chunk| >= 1 { buf := buf + chunk; }
      return true;
    }

    /** __redisReaderSetError. */
    method SetError(why: Failure)
      requires rstack.Length == MAX_DEPTH
      modifies this
      ensures Valid() && err == Some(why) && Stack() == [] && Input() == [] && Stepped()
    {
      err, buf, pos, ridx, reply := Some(why), [], 0, -1, None;
    }

    /** Creates the object for the current task and runs moveToNextTask. */
    method StoreAndMove(obj: Reply)
      requires rstack.Length == MAX_DEPTH && 0 <= ridx < MAX_DEPTH && reply.None?
      modifies this`ridx, this`reply, rstack
      ensures -1 <= ridx < MAX_DEPTH && (Stack(), reply) == Complete(old(Stack()), obj)
      ensures ridx == -1 <==> reply.Some?
    {
      var o := obj;
      while true
        invariant 0 <= ridx < MAX_DEPTH && reply.None? && Complete(Stack(), o) == old(Complete(Stack(), obj))
        decreases ridx
      {
        ghost var st := Stack();
        if ridx == 0 {
          ridx, reply := -1, Some(o);
          return;
        }
        var cur, prv := rstack[ridx], rstack[ridx - 1];
        assert st[..|st| - 1] == rstack[..ridx];
        var parent := prv.(children := prv.children + [o]);
        rstack[ridx - 1] := parent;
        if cur.idx == prv.elements - 1 {
          ridx, o := ridx - 1, Array(prv.elements, parent.children);
          SameButTop(st[..|st| - 1], Stack(), o);
        } else {
          rstack[ridx] := Task(Unknown, -1, cur.idx + 1, []);
          assert st[..|st| - 1][..|st| - 2] == st[..|st| - 2];
          assert Stack() == st[..|st| - 2] + [parent, Task(Unknown, -1, cur.idx + 1, [])];
          return;
        }
      }
    }

    /** The reader is between items: no error, a current task, no finished reply. */
    ghost predicate Busy()
      reads this, rstack
    {
      && rstack.Length == MAX_DEPTH && 0 <= ridx < MAX_DEPTH && pos <= |buf|
      && err.None? && reply.None? && StackOk(Stack())
    }

    /** What draining would still yield, with the reply just finished put in front. */
    ghost function Pending(): Drained
      reads this, rstack
      requires rstack.Length == MAX_DEPTH && -1 <= ridx < MAX_DEPTH && pos <= |buf|
    {
      if err.Some? then Drained([], [], [], err) else Emit(reply, Drain(Stack(), Input()))
    }

    /** The state after one step: well shaped, with a finished reply exactly when no task is left. */
    ghost predicate Stepped()
      reads this, rstack
    {
      && rstack.Length == MAX_DEPTH && -1 <= ridx < MAX_DEPTH && pos <= |buf| && StackOk(Stack())
      && (err.Some? ==> ridx == -1 && buf == [] && reply.None?)
      && (err.None? ==> (ridx == -1 <==> reply.Some?))
    }

    /** Consumes n bytes, then stores obj: the tail of every process*Item. */
    method FinishItem(obj: Reply, n: nat)
      requires Busy() && n <= |Input()|
      modifies this, rstack
      ensures Stepped() && match Finish(old(Stack()), obj, n)
        case Fail(w) => err == Some(w)
        case Next(st, _, out) => err.None? && Stack() == st && reply == out && Input() == old(Input())[n..]
    {
      hide Complete;
      if ridx > 0 && rstack[ridx - 1].elements <= 0 {
        SetError(Crash);
        return;
      }
      FinishOk(Stack());
      assert buf[pos..][n..] == buf[pos + n..];
      pos := pos + n;
      StoreAndMove(obj);
    }

    /** The reader has done o, a step taken on a stack and an input. */
    ghost predicate Did(ok: bool, o: Outcome, stack: seq<Task>, s: seq<Byte>)
      reads this, rstack
    {
      Stepped() && match o
        case More => !ok && err.None? && Stack() == stack && Input() == s && reply.None?
        case Fail(w) => !ok && err == Some(w)
        case Next(st, n, out) => ok && n <= |s| && err.None? && Stack() == st && reply == out && Input() == s[n..]
    }

    /** processLineItem. */
    method ProcessLine() returns (ok: bool)
      requires Busy() && rstack[ridx].kind in {KStatus, KError, KInteger}
      modifies this, rstack
      ensures Did(ok, ReadLineItem(old(Stack()), old(Input())), old(Stack()), old(Input()))
    {
      hide Finish, StackOk, Drain;
      var kind, s := rstack[ridx].kind, buf[pos..];
      var p := SeekNewline(s);
      if p == -1 { return false; }
      var line := s[..p];
      var v := -1;
      if kind.KInteger? { v := ReadLongLong(line); }
      FinishCases(Stack());
      FinishItem(if kind.KInteger? then Integer(v) else if kind.KStatus? then Status(line) else Error(line), p + 2);
      ok := err.None?;
    }

    /** processBulkItem. */
    method ProcessBulk() returns (ok: bool)
      requires Busy() && rstack[ridx].kind.KBulk?
      modifies this, rstack
      ensures Did(ok, ReadBulkItem(old(Stack()), old(Input())), old(Stack()), old(Input()))
    {
      hide Finish, StackOk, Drain;
      var s := buf[pos..];
      var p := SeekNewline(s);
      if p == -1 { return false; }
      var len := ReadLongLong(s[..p]);
      FinishCases(Stack());
      if len < 0 {
        FinishItem(Nil, p + 2);
      } else if |s| < p + 2 + len + 2 {
        return false;
      } else {
        FinishItem(Bulk(s[p + 2..p + 2 + len]), p + 2 + len + 2);
      }
      ok := err.None?;
    }

    /** processMultiBulkItem. */
    method ProcessArray() returns (ok: bool)
      requires Busy() && rstack[ridx].kind.KArray?
      modifies this, rstack
      ensures Did(ok, ReadArrayItem(old(Stack()), old(Input())), old(Stack()), old(Input()))
    {
      hide Finish, StackOk, Drain;
      if ridx == 8 {
        SetError(TooDeep);
        return false;
      }
      var s := buf[pos..];
      var p := SeekNewline(s);
      if p == -1 { return false; }
      var v := ReadLongLong(s[..p]);
      FinishCases(Stack());
      if v == -1 {
        FinishItem(Nil, p + 2);
      } else if v <= 0 {
        FinishItem(Array(AsInt(v), []), p + 2);
      } else {
        PushArray(v, p + 2);
      }
      ok := err.None?;
    }

    /** The switch on the item type: the second half of processItem. */
    method ProcessTyped() returns (ok: bool)
      requires Busy() && !rstack[ridx].kind.Unknown?
      modifies this, rstack
      ensures Did(ok, Step(old(Stack()), old(Input())), old(Stack()), old(Input()))
    {
      hide Finish, StackOk, Drain, ReadLineItem, ReadBulkItem, ReadArrayItem;
      var kind := rstack[ridx].kind;
      if kind.KBulk? {
        ok := ProcessBulk();
      } else if kind.KArray? {
        ok := ProcessArray();
      } else {
        ok := ProcessLine();
      }
    }

    /** Lines 320-333: the array becomes the parent of a new task. */
    method PushArray(v: int, n: nat)
      requires Busy() && n <= |Input()| && ridx < 8 && rstack[ridx].kind.KArray?
      modifies this, rstack
      ensures Stepped()
      ensures if HasRoom(old(Stack())) then
          && err.None? && reply.None? && Input() == old(Input())[n..]
          && var st := old(Stack());
             Stack() == SetTop(st, st[|st| - 1].(elements := AsInt(v))) + [Task(Unknown, -1, 0, [])]
        else err == Some(Crash)
    {
      hide StackOk;
      if ridx > 0 && rstack[ridx - 1].elements <= 0 {
        SetError(Crash);
        return;
      }
      ghost var st := Stack();
      var cur := rstack[ridx].(elements := AsInt(v));
      FreshTop(st);
      PushOk(st, cur);
      assert buf[pos..][n..] == buf[pos + n..];
      pos := pos + n;
      rstack[ridx] := cur;
      ridx := ridx + 1;
      rstack[ridx] := Task(Unknown, -1, 0, []);
      assert Stack() == SetTop(st, cur) + [Task(Unknown, -1, 0, [])];
    }

    /** Reads the type byte of the current task: the first half of processItem. */
    method ProcessType() returns (ok: bool)
      requires Busy() && rstack[ridx].kind.Unknown?
      modifies this, rstack
      ensures Stepped() && reply.None? && match Step(old(Stack()), old(Input()))
        case More => !ok && err.None? && Stack() == old(Stack()) && Input() == old(Input())
        case Fail(w) => !ok && err == Some(w)
        case Next(st, n, out) =>
          ok && Busy() && !rstack[ridx].kind.Unknown? && Stack() == st && Input() == old(Input())[n..] && out.None?
    {
      hide StackOk;
      if pos == |buf| { return false; }
      ghost var st := Stack();
      var b := buf[pos];
      pos := pos + 1;
      var kind := KindOf(b);
      if kind.Unknown? {
        SetError(BadByte(b));
        return false;
      }
      FreshTop(st);
      SetTopOk(st, st[|st| - 1].(kind := kind));
      rstack[ridx] := rstack[ridx].(kind := kind);
      assert Stack() == SetTop(st, st[|st| - 1].(kind := kind));
      return true;
    }

    /** processItem: does not change what draining would yield, and stops only to wait for input. */
    method ProcessItem() returns (ok: bool)
      requires Busy()
      modifies this, rstack
      ensures Stepped() && Pending() == old(Pending())
      ensures |Input()| <= |old(Input())| && (ok ==> err.None? && |Input()| < |old(Input())|)
      ensures !ok && err.None? ==> Busy() && Step(Stack(), Input()).More?
    {
      hide Step, StackOk;
      StepConsumes(Stack(), Input());
      if rstack[ridx].kind.Unknown? {
        ok := ProcessType();
        if !ok { return; }
      }
      assert Pending() == old(Pending());
      label typed:
      StepConsumes(Stack(), Input());
      ok := ProcessTyped();
      assert Pending() == old@typed(Pending());
    }

    /** redisReaderGetReply: the next reply, or none yet, or the error, exactly as draining the input would give them. */
    method GetReply() returns (ok: bool, r: Option<Reply>)
      requires Valid()
      modifies this, rstack
      ensures Valid() && ok == err.None?
      ensures old(err).Some? ==> err == old(err) && r.None?
      ensures old(err).None? && r.Some? ==> ok && old(Drain(Stack(), Input())) == Emit(r, Drain(Stack(), Input()))
      ensures old(err).None? && r.None? ==>
        var d := old(Drain(Stack(), Input())); d.replies == [] && d.error == err
      ensures old(err).None? && ok && r.None? ==>
        var d := old(Drain(Stack(), Input())); Opened(Stack()) == d.stack && Input() == d.rest
      ensures r.Some? ==> |Input()| < |old(Input())|
    {
      hide Step, StackOk;
      if err.Some? { return false, None; }
      if |buf| == 0 {
        NothingToStep(Stack());
        return true, None;
      }
      if ridx == -1 {
        RootOk();
        rstack[0] := ROOT;
        ridx := 0;
        assert Stack() == [ROOT];
      }
      ghost var d := Drain(Stack(), Input());
      assert d == old(Drain(Stack(), Input()));
      var going := true;
      while ridx >= 0 && going
        invariant Stepped() && Pending() == d && (err.None? && ridx >= 0 ==> Busy())
        invariant |Input()| <= |old(Input())| && (err.None? && ridx == -1 ==> |Input()| < |old(Input())|)
        invariant !going && err.None? && ridx >= 0 ==> Step(Stack(), Input()).More?
        decreases |Input()|, going
      {
        going := ProcessItem();
      }
      if err.Some? { return false, None; }
      if pos >= 1024 {
        assert buf[pos..][0..] == buf[pos..];
        buf, pos := buf[pos..], 0;
      }
      if ridx == 8 { TooDeepNow(Stack(), Input()); }
      r := reply;
      reply := None;
      return true, r;
    }
  }

  /** d's replies come after those in `before`; everything else is d's. */
  ghost function After(before: seq<Reply>, d: Drained): Drained { d.(replies := before + d.replies) }

  /** The loop of redisProcessCallbacks around the reader: takes replies until there is none. */
  method TakeReplies(r: Reader) returns (out: seq<Reply>)
    requires r.Valid() && r.err.None?
    modifies r, r.rstack
    ensures r.Valid()
    ensures var d := old(Drain(r.Stack(), r.Input()));
      && out == d.replies && r.err == d.error
      && (r.err.None? ==> Opened(r.Stack()) == d.stack && r.Input() == d.rest)
  {
    hide Drain;
    ghost var d := Drain(r.Stack(), r.Input());
    out := [];
    assert After(out, d) == d;
    while true
      invariant r.Valid() && r.err.None? && d == After(out, Drain(r.Stack(), r.Input()))
      decreases |r.Input()|
    {
      var ok, reply := r.GetReply();
      if reply.None? { return; }
      assert out + ([reply.value] + Drain(r.Stack(), r.Input()).replies)
          == out + [reply.value] + Drain(r.Stack(), r.Input()).replies;
      out := out + [reply.value];
    }
  }

  /** A whole session: however the stream is cut into feeds, what comes out is what the uncut stream gives. */
  method ReadAll(pieces: seq<seq<Byte>>) returns (replies: seq<Reply>, error: Option<Failure>)
    ensures var d := Drain([], Joined(pieces)); replies == d.replies && error == d.error
  {
    hide Drain, StackOk;
    var r := new Reader();
    replies := [];
    ghost var fed: seq<Byte> := [];
    NothingToStep([]);
    for i := 0 to |pieces|
      invariant r.Valid() && fresh(r) && fresh(r.rstack) && fed == Joined(pieces[..i])
      invariant var d := Drain([], fed); d.replies == replies && d.error == r.err
      invariant r.err.None? ==> var d := Drain([], fed); Opened(r.Stack()) == d.stack && r.Input() == d.rest
    {
      ghost var d, was := Drain([], fed), r.Stack();
      DrainSplits([], fed, pieces[i]);
      JoinedLast(pieces, i);
      var ok := r.Feed(pieces[i]);
      fed := fed + pieces[i];
      if ok {
        OpenedDrains(was, r.Input());
        var more := TakeReplies(r);
        replies := replies + more;
      }
    }
    assert pieces[..|pieces|] == pieces;
    return replies, r.err;
  }

  /** An empty stack is the same as one that holds the root task. */
  lemma OpenedDrains(stack: seq<Task>, s: seq<Byte>)
    ensures Drain(Opened(stack), s) == Drain(stack, s)
  {
    hide Step;
    assert Opened(Opened(stack)) == Opened(stack);
  }

  lemma {:induction false} JoinedLast(pieces: seq<seq<Byte>>, i: nat)
    requires i < |pieces|
    ensures Joined(pieces[..i + 1]) == Joined(pieces[..i]) + pieces[i]
  {
    if i == 0 {
      assert pieces[..1][1..] == [];
    } else {
      JoinedLast(pieces[1..], i - 1);
      assert pieces[..i + 1][1..] == pieces[1..][..i] && pieces[..i][1..] == pieces[1..][..i - 1];
    }
  }

  lemma RootOk()
    ensures StackOk([ROOT])
  {
  }

  lemma TooDeepNow(stack: seq<Task>, s: seq<Byte>)
    requires |stack| == MAX_DEPTH && Step(stack, s).More?
    ensures !stack[8].kind.KArray?
  {
  }

  /** With no input there is nothing to do but wait. */
  lemma NothingToStep(stack: seq<Task>)
    requires |stack| <= MAX_DEPTH && (|stack| == MAX_DEPTH ==> !stack[8].kind.KArray?)
    ensures Drain(stack, []) == Drained([], Opened(stack), [], None)
  {
  }

  lemma FinishCases(stack: seq<Task>)
    requires stack != []
    ensures forall obj, n: nat :: !Finish(stack, obj, n).More? && (Finish(stack, obj, n).Next? ==> Finish(stack, obj, n).n == n)
  {
    hide Complete;
  }
}
