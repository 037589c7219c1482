/**
 The reply parser of hiredis as a machine over a stack of tasks and the unread input: one step reads a type
 byte or one complete item.  Feeding the input in any pieces gives the same replies and the same error.
 */
module RespParser {
  import opened Optional
  import opened Bytes

  /** A reply; an array carries the element count its header announced. */
  datatype Reply =
    | Status(str: seq<Byte>)
    | Error(str: seq<Byte>)
    | Integer(value: int)
    | Bulk(str: seq<Byte>)
    | Nil
    | Array(count: int, elements: seq<Reply>)

  datatype Kind = Unknown | KStatus | KError | KInteger | KBulk | KArray

  /** One entry of rstack; `children` holds the elements an array task has so far. */
  datatype Task = Task(kind: Kind, elements: int, idx: int, children: seq<Reply>)

  const MAX_DEPTH := 9

  const ROOT := Task(Unknown, -1, -1, [])

  datatype Failure = BadByte(b: Byte) | TooDeep | Crash

  /** What one step does: wait for input, go on after n bytes (perhaps emitting a reply), or fail for good. */
  datatype Outcome = More | Next(stack: seq<Task>, n: nat, out: Option<Reply>) | Fail(why: Failure)

  // ----- Lines and numbers

  /** seekNewline: the first position of CR LF, or -1. */
  function Seek(s: seq<Byte>, i: nat): (p: int)
    requires i <= |s|
    ensures p == -1 || (i <= p <= |s| - 2 && s[p] == CR && s[p + 1] == LF)
    ensures p == -1 ==> forall k :: i <= k < |s| - 1 ==> !(s[k] == CR && s[k + 1] == LF)
    ensures p != -1 ==> forall k :: i <= k < p ==> !(s[k] == CR && s[k + 1] == LF)
    decreases |s| - i
  {
    if |s| - i < 2 then -1 else if s[i] == CR && s[i + 1] == LF then i else Seek(s, i + 1)
  }

  /** readLongLong on the digits after the sign, up to the first CR or the end of the line; None for anything else. */
  function Digits(s: seq<Byte>, v: nat): Option<nat> {
    if s == [] || s[0] == CR then Some(v)
    else if IsDigit(s[0]) then Digits(s[1..], v * 10 + (s[0] - 48))
    else None
  }

  function ReadNumber(line: seq<Byte>): int {
    if line != [] && line[0] == MINUS then
      (match Digits(line[1..], 0) case Some(v) => 0 - v case None => -1)
    else
      var t := if line != [] && line[0] == PLUS then line[1..] else line;
      match Digits(t, 0) case Some(v) => v case None => -1
  }

  // ----- Finishing an item

  /**
   Storing obj for the top task and moveToNextTask: the item goes into its parent, and every array that this
   completes goes into its own.
   */
  function Complete(stack: seq<Task>, obj: Reply): (seq<Task>, Option<Reply>)
    requires stack != []
    decreases |stack|
  {
    if |stack| == 1 then ([], Some(obj)) else
      var rest := stack[..|stack| - 1];
      var cur, prv := stack[|stack| - 1], rest[|rest| - 1];
      var parent := prv.(children := prv.children + [obj]);
      if cur.idx == prv.elements - 1 then Complete(rest, Array(prv.elements, parent.children))
      else (rest[..|rest| - 1] + [parent, Task(Unknown, -1, cur.idx + 1, [])], None)
  }

  /** What Complete does does not depend on the elements the top task has collected. */
  lemma SameButTop(a: seq<Task>, b: seq<Task>, obj: Reply)
    requires a != [] && |a| == |b| && a[..|a| - 1] == b[..|b| - 1] && a[|a| - 1].idx == b[|b| - 1].idx
    ensures Complete(a, obj) == Complete(b, obj)
  {
  }

  /** An object may be created: the array it goes into was given room for elements. */
  predicate HasRoom(stack: seq<Task>) { |stack| >= 2 ==> stack[|stack| - 2].elements > 0 }

  function Finish(stack: seq<Task>, obj: Reply, n: nat): Outcome
    requires stack != []
  {
    if !HasRoom(stack) then Fail(Crash) else
      var (st, out) := Complete(stack, obj);
      Next(st, n, out)
  }

  // ----- One step

  function KindOf(b: Byte): Kind {
    if b == MINUS then KError else if b == PLUS then KStatus else if b == COLON then KInteger
    else if b == DOLLAR then KBulk else if b == STAR then KArray else Unknown
  }

  function SetTop(stack: seq<Task>, t: Task): seq<Task>
    requires stack != []
  {
    stack[..|stack| - 1] + [t]
  }

  function ReadType(stack: seq<Task>, s: seq<Byte>): Outcome
    requires stack != []
  {
    if s == [] then More
    else if KindOf(s[0]).Unknown? then Fail(BadByte(s[0]))
    else Next(SetTop(stack, stack[|stack| - 1].(kind := KindOf(s[0]))), 1, None)
  }

  function ReadLineItem(stack: seq<Task>, s: seq<Byte>): Outcome
    requires stack != []
  {
    var p := Seek(s, 0);
    if p == -1 then More else
      var line, kind := s[..p], stack[|stack| - 1].kind;
      Finish(stack, if kind.KInteger? then Integer(ReadNumber(line)) else if kind.KStatus? then Status(line) else Error(line),
             p + 2)
  }

  function ReadBulkItem(stack: seq<Task>, s: seq<Byte>): Outcome
    requires stack != []
  {
    var p := Seek(s, 0);
    if p == -1 then More else
      var len := ReadNumber(s[..p]);
      if len < 0 then Finish(stack, Nil, p + 2)
      else if |s| < p + 2 + len + 2 then More
      else Finish(stack, Bulk(s[p + 2..p + 2 + len]), p + 2 + len + 2)
  }

  function ReadArrayItem(stack: seq<Task>, s: seq<Byte>): Outcome
    requires stack != []
  {
    if |stack| >= MAX_DEPTH then Fail(TooDeep) else
      var p := Seek(s, 0);
      if p == -1 then More else
        var elements := ReadNumber(s[..p]);
        if elements == -1 then Finish(stack, Nil, p + 2)
        else if elements <= 0 then Finish(stack, Array(AsInt(elements), []), p + 2)
        else if !HasRoom(stack) then Fail(Crash)
        else
          var cur := stack[|stack| - 1].(elements := AsInt(elements));
          Next(SetTop(stack, cur) + [Task(Unknown, -1, 0, [])], p + 2, None)
  }

  function Step(stack: seq<Task>, s: seq<Byte>): Outcome
    requires stack != []
  {
    match stack[|stack| - 1].kind
    case Unknown => ReadType(stack, s)
    case KBulk => ReadBulkItem(stack, s)
    case KArray => ReadArrayItem(stack, s)
    case _ => ReadLineItem(stack, s)
  }

  lemma StepConsumes(stack: seq<Task>, s: seq<Byte>)
    requires stack != []
    ensures Step(stack, s).Next? ==> 1 <= Step(stack, s).n <= |s|
  {
  }

  // ----- Draining

  /** Everything the input yields: replies in order, the stack and input left over, and the error if one was met. */
  datatype Drained = Drained(replies: seq<Reply>, stack: seq<Task>, rest: seq<Byte>, error: Option<Failure>)

  function Opened(stack: seq<Task>): (st: seq<Task>)
    ensures st != []
  {
    if stack == [] then [ROOT] else stack
  }

  function Emit(out: Option<Reply>, d: Drained): Drained {
    if out.Some? then d.(replies := [out.value] + d.replies) else d
  }

  function Drain(stack: seq<Task>, s: seq<Byte>): Drained
    decreases |s|
  {
    StepConsumes(Opened(stack), s);
    match Step(Opened(stack), s)
    case More => Drained([], Opened(stack), s, None)
    case Fail(w) => Drained([], [], [], Some(w))
    case Next(st, n, out) => Emit(out, Drain(st, s[n..]))
  }

  // ----- More input never changes what a step has done

  lemma {:induction false} SeekExtends(s: seq<Byte>, t: seq<Byte>, i: nat)
    requires i <= |s| && Seek(s, i) != -1
    ensures Seek(s + t, i) == Seek(s, i)
    decreases |s| - i
  {
    if !(s[i] == CR && s[i + 1] == LF) { SeekExtends(s, t, i + 1); }
  }

  /** Unless it was waiting, a step takes the same bytes and does the same however much input follows. */
  lemma StepExtends(stack: seq<Task>, s: seq<Byte>, t: seq<Byte>)
    requires stack != [] && !Step(stack, s).More?
    ensures Step(stack, s + t) == Step(stack, s)
  {
    hide Finish, ReadNumber;
    if !stack[|stack| - 1].kind.Unknown? {
      var p := Seek(s, 0);
      if p != -1 {
        SeekExtends(s, t, 0);
        assert (s + t)[..p] == s[..p];
        var len := ReadNumber(s[..p]);
        assert 0 <= len && p + 2 + len + 2 <= |s| ==> (s + t)[p + 2..p + 2 + len] == s[p + 2..p + 2 + len];
      }
    }
  }

  /** Feeding s, draining, then feeding t and draining is feeding s + t. */
  lemma {:induction false} DrainSplits(stack: seq<Task>, s: seq<Byte>, t: seq<Byte>)
    ensures var a := Drain(stack, s);
      Drain(stack, s + t) ==
      if a.error.Some? then a else var b := Drain(a.stack, a.rest + t); b.(replies := a.replies + b.replies)
    decreases |s|
  {
    hide Step;
    var top := Opened(stack);
    StepConsumes(top, s);
    match Step(top, s)
    case More =>
      var b := Drain(top, s + t);
      assert [] + b.replies == b.replies;
      assert Opened(top) == top;
    case Fail(w) => StepExtends(top, s, t);
    case Next(st, n, out) =>
      StepExtends(top, s, t);
      assert (s + t)[n..] == s[n..] + t;
      DrainSplits(st, s[n..], t);
      var a := Drain(st, s[n..]);
      if a.error.None? {
        var b := Drain(a.stack, a.rest + t);
        if out.Some? { assert [out.value] + (a.replies + b.replies) == [out.value] + a.replies + b.replies; }
      }
  }

  /** Feeding the pieces one by one, draining after each; after an error nothing more is read. */
  function DrainPieces(stack: seq<Task>, rest: seq<Byte>, pieces: seq<seq<Byte>>): Drained
    decreases |pieces|
  {
    if pieces == [] then Drained([], stack, rest, None) else
      var a := Drain(stack, rest + pieces[0]);
      if a.error.Some? then a else
        var b := DrainPieces(a.stack, a.rest, pieces[1..]);
        b.(replies := a.replies + b.replies)
  }

  function Joined(pieces: seq<seq<Byte>>): seq<Byte> {
    if pieces == [] then [] else pieces[0] + Joined(pieces[1..])
  }

  /** Draining again without new input changes nothing. */
  lemma {:induction false} DrainedIsStable(stack: seq<Task>, s: seq<Byte>)
    ensures var a := Drain(stack, s);
      a.error.None? ==> a.stack != [] && Drain(a.stack, a.rest) == Drained([], a.stack, a.rest, None)
    decreases |s|
  {
    hide Step;
    var top := Opened(stack);
    StepConsumes(top, s);
    match Step(top, s)
    case More => assert Opened(top) == top;
    case Fail(w) =>
    case Next(st, n, out) => DrainedIsStable(st, s[n..]);
  }

  /**
   Chunk independence: for every byte stream, valid or not, and every way of cutting it, the replies, the
   error and what is left over are those of the whole stream.
   */
  lemma {:induction false} ChunkIndependence(stack: seq<Task>, rest: seq<Byte>, pieces: seq<seq<Byte>>)
    requires pieces != []
    ensures DrainPieces(stack, rest, pieces) == Drain(stack, rest + Joined(pieces))
    decreases |pieces|
  {
    hide Drain;
    var first, more := rest + pieces[0], pieces[1..];
    assert rest + Joined(pieces) == first + Joined(more);
    DrainSplits(stack, first, Joined(more));
    var a := Drain(stack, first);
    if a.error.None? {
      if more == [] {
        assert a.rest + Joined(more) == a.rest;
        DrainedIsStable(stack, first);
        assert a.replies + [] == a.replies;
      } else {
        ChunkIndependence(a.stack, a.rest, more);
      }
    }
  }

  // ----- The shape of the stack

  /** prv is an array that has got its elements before cur's, and cur's index is one of its indices. */
  predicate Link(prv: Task, cur: Task) {
    && prv.kind.KArray? && 0 <= cur.idx == |prv.children|
    && (prv.elements > 0 ==> cur.idx < prv.elements)
  }

  predicate Links(stack: seq<Task>) {
    |stack| <= MAX_DEPTH && forall i, j :: 0 <= i && j == i + 1 < |stack| ==> Link(stack[i], stack[j])
  }

  /**
   At most nine tasks; all but the top are arrays, each with the entry above it at an index in range; and all but
   perhaps the innermost of those arrays were given room for at least one element.
   */
  predicate StackOk(stack: seq<Task>) {
    && Links(stack)
    && (forall i :: 0 <= i < |stack| - 2 ==> stack[i].elements > 0)
    && (stack != [] ==> stack[|stack| - 1].children == [])
  }

  lemma {:induction false} CompleteOk(stack: seq<Task>, obj: Reply)
    requires stack != [] && Links(stack) && forall i :: 0 <= i < |stack| - 1 ==> stack[i].elements > 0
    ensures StackOk(Complete(stack, obj).0)
    decreases |stack|
  {
    if |stack| > 1 {
      var rest := stack[..|stack| - 1];
      var cur, prv := stack[|stack| - 1], rest[|rest| - 1];
      assert Link(stack[|stack| - 2], stack[|stack| - 1]);
      if cur.idx == prv.elements - 1 {
        assert Links(rest);
        CompleteOk(rest, Array(prv.elements, prv.children + [obj]));
      } else {
        var parent, below := prv.(children := prv.children + [obj]), Task(Unknown, -1, cur.idx + 1, []);
        var st := rest[..|rest| - 1] + [parent, below];
        assert Link(parent, below);
        forall i, j | 0 <= i && j == i + 1 < |st|
          ensures Link(st[i], st[j])
        {
          assert i < |stack| - 2 ==> Link(stack[i], stack[j]);
        }
      }
    }
  }

  lemma SetTopOk(stack: seq<Task>, t: Task)
    requires stack != [] && StackOk(stack) && t.idx == stack[|stack| - 1].idx && t.children == []
    ensures StackOk(SetTop(stack, t))
  {
    var st := SetTop(stack, t);
    forall i, j | 0 <= i && j == i + 1 < |st|
      ensures Link(st[i], st[j])
    {
      assert Link(stack[i], stack[j]);
    }
  }

  lemma PushOk(stack: seq<Task>, t: Task)
    requires stack != [] && StackOk(stack) && |stack| < MAX_DEPTH && HasRoom(stack)
    requires t.kind.KArray? && t.children == [] && t.idx == stack[|stack| - 1].idx
    ensures StackOk(SetTop(stack, t) + [Task(Unknown, -1, 0, [])])
  {
    SetTopOk(stack, t);
    var st, below := SetTop(stack, t), Task(Unknown, -1, 0, []);
    assert Link(t, below);
    forall i, j | 0 <= i && j == i + 1 < |st + [below]|
      ensures Link((st + [below])[i], (st + [below])[j])
    {
      assert j < |st| ==> Link(st[i], st[j]);
    }
  }

  lemma StepOk(stack: seq<Task>, s: seq<Byte>)
    requires stack != [] && StackOk(stack)
    ensures Step(stack, s).Next? ==> StackOk(Step(stack, s).stack)
  {
    hide StackOk, Complete, Seek, ReadNumber;
    var top := stack[|stack| - 1];
    FreshTop(stack);
    match top.kind
    case Unknown => if s != [] { SetTopOk(stack, top.(kind := KindOf(s[0]))); }
    case KArray =>
      if HasRoom(stack) {
        FinishOk(stack);
        var p := Seek(s, 0);
        if |stack| < MAX_DEPTH && p != -1 { PushOk(stack, top.(elements := AsInt(ReadNumber(s[..p])))); }
      }
    case _ => if HasRoom(stack) { FinishOk(stack); }
  }

  lemma FreshTop(stack: seq<Task>)
    requires stack != [] && StackOk(stack)
    ensures stack[|stack| - 1].children == [] && Links(stack)
  {
  }

  lemma FinishOk(stack: seq<Task>)
    requires stack != [] && StackOk(stack) && HasRoom(stack)
    ensures forall obj :: StackOk(Complete(stack, obj).0)
  {
    forall obj
      ensures StackOk(Complete(stack, obj).0)
    {
      CompleteOk(stack, obj);
    }
  }

  /** Whatever the input, the stack stays well shaped. */
  lemma {:induction false} DrainOk(stack: seq<Task>, s: seq<Byte>)
    requires StackOk(stack)
    ensures StackOk(Drain(stack, s).stack)
    decreases |s|
  {
    hide Step;
    var top := Opened(stack);
    StepConsumes(top, s);
    StepOk(top, s);
    match Step(top, s)
    case More =>
    case Fail(w) =>
    case Next(st, n, out) => DrainOk(st, s[n..]);
  }
}
