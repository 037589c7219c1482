/** The RESP encoding of replies and commands, the command formatters, and what the parser makes of their output. */
module RespFormat {
  import opened Optional
  import opened Bytes
  import opened AofCommand
  import opened RespParser

  // ----- Encoding

  function EncodeInt(v: int): seq<Byte> { if v < 0 then [MINUS] + Dec(0 - v) else Dec(v) }

  function EncodeReply(r: Reply): seq<Byte>
    decreases r
  {
    match r
    case Status(str) => [PLUS] + str + CRLF
    case Error(str) => [MINUS] + str + CRLF
    case Integer(v) => [COLON] + EncodeInt(v) + CRLF
    case Bulk(str) => EncodeArg(str)
    case Nil => [DOLLAR] + EncodeInt(-1) + CRLF
    case Array(_, elements) => [STAR] + Dec(|elements|) + CRLF + EncodeAll(elements)
  }

  function EncodeAll(rs: seq<Reply>): seq<Byte>
    decreases rs
  {
    if rs == [] then [] else EncodeReply(rs[0]) + EncodeAll(rs[1..])
  }

  predicate NoCrlf(s: seq<Byte>) { forall i, j :: 0 <= i && j == i + 1 < |s| ==> !(s[i] == CR && s[j] == LF) }

  /** Lines hold no line end, numbers are read without overflow, and the counts are true and fit an int. */
  predicate Encodable(r: Reply)
    decreases r
  {
    match r
    case Status(str) => NoCrlf(str)
    case Error(str) => NoCrlf(str)
    case Integer(v) => -LONG_LIMIT < v < LONG_LIMIT
    case Array(count, elements) =>
      count == |elements| < INT_LIMIT && forall i :: 0 <= i < |elements| ==> Encodable(elements[i])
    case _ => true
  }

  /** Levels of nested arrays. */
  function Depth(r: Reply): nat
    decreases r
  {
    if r.Array? then 1 + DepthAll(r.elements) else 0
  }

  function DepthAll(rs: seq<Reply>): (d: nat)
    ensures forall i :: 0 <= i < |rs| ==> Depth(rs[i]) <= d
    ensures rs != [] ==> exists i :: 0 <= i < |rs| && Depth(rs[i]) == d
    decreases rs
  {
    if rs == [] then 0 else
      var d, e := Depth(rs[0]), DepthAll(rs[1..]);
      assert forall i :: 1 <= i < |rs| ==> rs[i] == rs[1..][i - 1];
      assert e > d ==> exists i :: 1 <= i < |rs| && Depth(rs[i]) == e by {
        if e > d && rs[1..] != [] {
          var i :| 0 <= i < |rs[1..]| && Depth(rs[1..][i]) == e;
          assert rs[i + 1] == rs[1..][i];
        }
      }
      if d >= e then d else e
  }

  // ----- Numbers and lines are read back

  lemma {:induction false} DigitsAppend(s: seq<Byte>, b: Byte, v: nat)
    requires AllDigits(s) && IsDigit(b)
    ensures Digits(s, v).Some? && Digits(s + [b], v) == Some(Digits(s, v).value * 10 + (b - 48))
    decreases |s|
  {
    if s == [] {
      assert (s + [b])[1..] == [];
    } else {
      assert (s + [b])[1..] == s[1..] + [b];
      DigitsAppend(s[1..], b, v * 10 + (s[0] - 48));
    }
  }

  lemma {:induction false} DigitsDec(n: nat)
    ensures Digits(Dec(n), 0) == Some(n)
  {
    if n < 10 {
      assert Dec(n)[1..] == [];
    } else {
      DigitsDec(n / 10);
      DigitsAppend(Dec(n / 10), 48 + n % 10, 0);
    }
  }

  lemma IntReads(v: int)
    ensures ReadNumber(EncodeInt(v)) == v
  {
    if v < 0 {
      DigitsDec(0 - v);
      assert ([MINUS] + Dec(0 - v))[1..] == Dec(0 - v);
    } else {
      DigitsDec(v);
      assert IsDigit(Dec(v)[0]);
    }
  }

  lemma IntHasNoCr(v: int)
    ensures NoCrlf(EncodeInt(v))
  {
    hide Dec;
  }

  /** The line end is found exactly where it was put. */
  lemma LineFound(line: seq<Byte>, rest: seq<Byte>)
    requires NoCrlf(line)
    ensures var s := line + CRLF + rest; Seek(s, 0) == |line| && s[..|line|] == line && s[|line| + 2..] == rest
  {
    var s := line + CRLF + rest;
    assert s[|line|] == CR && s[|line| + 1] == LF;
    forall i, j | 0 <= i < |line| && j == i + 1
      ensures !(s[i] == CR && s[j] == LF)
    {
      assert j < |line| ==> line[i] == s[i] && line[j] == s[j];
    }
  }

  // ----- One item

  /** The stack waits for a new item and may store it. */
  predicate Awaits(stack: seq<Task>) { stack != [] && stack[|stack| - 1].kind.Unknown? && HasRoom(stack) }

  function Typed(stack: seq<Task>, kind: Kind): (st: seq<Task>)
    requires stack != []
    ensures st != [] && |st| == |stack|
  {
    SetTop(stack, stack[|stack| - 1].(kind := kind))
  }

  /** The input after an item that makes obj: what the item completes, then the rest. */
  function Follow(stack: seq<Task>, obj: Reply, rest: seq<Byte>): Drained
    requires stack != []
  {
    var (st, out) := Complete(stack, obj);
    Emit(out, Drain(st, rest))
  }

  lemma TypeRead(stack: seq<Task>, b: Byte, s: seq<Byte>)
    requires stack != [] && stack[|stack| - 1].kind.Unknown? && !KindOf(b).Unknown?
    ensures Drain(stack, [b] + s) == Drain(Typed(stack, KindOf(b)), s)
  {
    assert ([b] + s)[1..] == s;
  }

  /** Giving the item its type does not change what storing it does. */
  lemma TypedFollows(stack: seq<Task>, kind: Kind, obj: Reply, rest: seq<Byte>)
    requires Awaits(stack)
    ensures HasRoom(Typed(stack, kind)) && Follow(Typed(stack, kind), obj, rest) == Follow(stack, obj, rest)
  {
    hide Complete, Drain;
    var st := Typed(stack, kind);
    assert st[..|st| - 1] == stack[..|stack| - 1];
    SameButTop(st, stack, obj);
  }

  lemma LineParses(stack: seq<Task>, b: Byte, line: seq<Byte>, rest: seq<Byte>)
    requires Awaits(stack) && b in {PLUS, MINUS, COLON} && NoCrlf(line)
    ensures Drain(stack, [b] + line + CRLF + rest) ==
      Follow(stack, if b == PLUS then Status(line) else if b == MINUS then Error(line) else Integer(ReadNumber(line)), rest)
  {
    hide Complete, Seek, ReadNumber, NoCrlf;
    var st, s := Typed(stack, KindOf(b)), line + CRLF + rest;
    assert [b] + line + CRLF + rest == [b] + s;
    TypeRead(stack, b, s);
    LineFound(line, rest);
    TypedFollows(stack, KindOf(b),
                 if b == PLUS then Status(line) else if b == MINUS then Error(line) else Integer(ReadNumber(line)), rest);
  }

  lemma StepFollows(st: seq<Task>, s: seq<Byte>, obj: Reply, n: nat)
    requires st != [] && HasRoom(st) && n <= |s| && Step(st, s) == Finish(st, obj, n)
    ensures Drain(st, s) == Follow(st, obj, s[n..])
  {
    hide Step, Complete;
  }

  lemma BulkStep(st: seq<Task>, str: seq<Byte>, rest: seq<Byte>)
    requires st != [] && st[|st| - 1].kind.KBulk?
    ensures var s := EncodeInt(|str|) + CRLF + (str + CRLF + rest);
      var n := |EncodeInt(|str|)| + 2 + |str| + 2;
      n <= |s| && s[n..] == rest && Step(st, s) == Finish(st, Bulk(str), n)
  {
    hide Finish, Seek, ReadNumber, NoCrlf, EncodeInt;
    var line, tail := EncodeInt(|str|), str + CRLF + rest;
    var s := line + CRLF + tail;
    IntReads(|str|);
    IntHasNoCr(|str|);
    LineFound(line, tail);
    var p := |line| + 2;
    assert s[p..p + |str|] == s[p..][..|str|] == str;
    assert s[p + |str| + 2..] == s[p..][|str| + 2..] == rest;
  }

  lemma BulkParses(stack: seq<Task>, str: seq<Byte>, rest: seq<Byte>)
    requires Awaits(stack)
    ensures Drain(stack, EncodeArg(str) + rest) == Follow(stack, Bulk(str), rest)
  {
    hide Step, Complete, Finish, Drain, Follow, Dec;
    var line := EncodeInt(|str|);
    var s := line + CRLF + (str + CRLF + rest);
    assert EncodeArg(str) + rest == [DOLLAR] + s;
    TypeRead(stack, DOLLAR, s);
    TypedFollows(stack, KBulk, Bulk(str), rest);
    var st := Typed(stack, KBulk);
    BulkStep(st, str, rest);
    StepFollows(st, s, Bulk(str), |line| + 2 + |str| + 2);
  }

  lemma NilParses(stack: seq<Task>, rest: seq<Byte>)
    requires Awaits(stack)
    ensures Drain(stack, EncodeReply(Nil) + rest) == Follow(stack, Nil, rest)
  {
    hide Complete, Seek, ReadNumber, NoCrlf, Dec;
    var s := EncodeInt(-1) + CRLF + rest;
    assert EncodeReply(Nil) + rest == [DOLLAR] + s;
    TypeRead(stack, DOLLAR, s);
    IntReads(-1);
    IntHasNoCr(-1);
    LineFound(EncodeInt(-1), rest);
    TypedFollows(stack, KBulk, Nil, rest);
  }

  // ----- Arrays

  /** The stack below an array that has got some of its elements, the array, and the entry for the next one. */
  function Filling(below: seq<Task>, arr: Task, got: seq<Reply>): (st: seq<Task>) {
    below + [arr.(children := got), Task(Unknown, -1, |got|, [])]
  }

  lemma HeaderStep(st: seq<Task>, n: nat, rest: seq<Byte>)
    requires st != [] && st[|st| - 1].kind.KArray? && |st| < MAX_DEPTH && HasRoom(st) && n < INT_LIMIT
    ensures var s, used := EncodeInt(n) + CRLF + rest, |EncodeInt(n)| + 2;
      used <= |s| && s[used..] == rest && Step(st, s) ==
      if n == 0 then Finish(st, Array(0, []), used)
      else Next(SetTop(st, st[|st| - 1].(elements := n)) + [Task(Unknown, -1, 0, [])], used, None)
  {
    hide Finish, Seek, ReadNumber, NoCrlf, EncodeInt;
    IntReads(n);
    IntHasNoCr(n);
    LineFound(EncodeInt(n), rest);
  }

  /** An array's header opens it, or stores it at once when it is empty. */
  lemma HeaderParses(stack: seq<Task>, n: nat, rest: seq<Byte>)
    requires Awaits(stack) && |stack| < MAX_DEPTH && n < INT_LIMIT && stack[|stack| - 1].children == []
    ensures var arr := stack[|stack| - 1].(kind := KArray, elements := n);
      Drain(stack, [STAR] + Dec(n) + CRLF + rest) ==
      if n == 0 then Follow(stack, Array(0, []), rest)
      else Drain(Filling(stack[..|stack| - 1], arr, []), rest)
  {
    hide Step, Complete, Finish, Follow, Drain, Dec, Typed;
    var s := EncodeInt(n) + CRLF + rest;
    assert [STAR] + Dec(n) + CRLF + rest == [STAR] + s;
    TypeRead(stack, STAR, s);
    if n == 0 { EmptyHeader(stack, rest); } else { FilledHeader(stack, n, rest); }
  }

  lemma EmptyHeader(stack: seq<Task>, rest: seq<Byte>)
    requires Awaits(stack) && |stack| < MAX_DEPTH
    ensures Drain(Typed(stack, KArray), EncodeInt(0) + CRLF + rest) == Follow(stack, Array(0, []), rest)
  {
    hide Step, Complete, Finish, Follow, Drain, EncodeInt;
    TypedFollows(stack, KArray, Array(0, []), rest);
    var st := Typed(stack, KArray);
    HeaderStep(st, 0, rest);
    StepFollows(st, EncodeInt(0) + CRLF + rest, Array(0, []), |EncodeInt(0)| + 2);
  }

  lemma FilledHeader(stack: seq<Task>, n: nat, rest: seq<Byte>)
    requires Awaits(stack) && |stack| < MAX_DEPTH && 0 < n < INT_LIMIT && stack[|stack| - 1].children == []
    ensures var arr := stack[|stack| - 1].(kind := KArray, elements := n);
      Drain(Typed(stack, KArray), EncodeInt(n) + CRLF + rest) == Drain(Filling(stack[..|stack| - 1], arr, []), rest)
  {
    hide Step, Complete, Finish, EncodeInt, Follow;
    TypedFollows(stack, KArray, Nil, rest);
    var st, arr := Typed(stack, KArray), stack[|stack| - 1].(kind := KArray, elements := n);
    HeaderStep(st, n, rest);
    assert st[..|st| - 1] == stack[..|stack| - 1];
    assert arr.(children := []) == arr;
    assert SetTop(st, arr) + [Task(Unknown, -1, 0, [])] == Filling(stack[..|stack| - 1], arr, []);
  }

  /** Storing an element either leaves the array waiting for the next one or stores the array itself. */
  lemma ElementStored(below: seq<Task>, arr: Task, got: seq<Reply>, r: Reply, rest: seq<Byte>)
    requires arr.kind.KArray? && |got| < arr.elements
    ensures Follow(Filling(below, arr, got), r, rest) ==
      if |got| + 1 == arr.elements then Follow(below + [arr], Array(arr.elements, got + [r]), rest)
      else Drain(Filling(below, arr, got + [r]), rest)
  {
    hide Drain;
    var st := Filling(below, arr, got);
    var under := st[..|st| - 1];
    assert under == below + [arr.(children := got)];
    if |got| + 1 == arr.elements {
      hide Complete;
      assert under[..|under| - 1] == below == (below + [arr])[..|below|];
      SameButTop(under, below + [arr], Array(arr.elements, got + [r]));
    } else {
      assert under[..|under| - 1] == below;
    }
  }

  /** Every encodable reply that is not nested too deep is read back and stored where an item was awaited. */
  lemma {:induction false} ReplyParses(stack: seq<Task>, r: Reply, rest: seq<Byte>)
    requires Awaits(stack) && stack[|stack| - 1].children == [] && Encodable(r) && |stack| + Depth(r) <= MAX_DEPTH
    ensures Drain(stack, EncodeReply(r) + rest) == Follow(stack, r, rest)
    decreases r
  {
    hide Drain, Follow, Dec, NoCrlf, EncodeInt, ReadNumber;
    match r
    case Status(str) => LineParses(stack, PLUS, str, rest);
    case Error(str) => LineParses(stack, MINUS, str, rest);
    case Integer(v) =>
      IntReads(v);
      IntHasNoCr(v);
      LineParses(stack, COLON, EncodeInt(v), rest);
    case Bulk(str) => BulkParses(stack, str, rest);
    case Nil => NilParses(stack, rest);
    case Array(n, rs) =>
      var tail := EncodeAll(rs) + rest;
      assert EncodeReply(r) + rest == [STAR] + Dec(n) + CRLF + tail;
      HeaderParses(stack, n, tail);
      if n == 0 {
        assert tail == rest;
      } else {
        var below, arr := stack[..|stack| - 1], stack[|stack| - 1].(kind := KArray, elements := n);
        ElementsParse(below, arr, [], rs, rest);
        assert [] + rs == rs;
        TopIsSame(stack, arr, r, rest);
      }
  }

  lemma TopIsSame(stack: seq<Task>, arr: Task, obj: Reply, rest: seq<Byte>)
    requires stack != [] && arr.idx == stack[|stack| - 1].idx
    ensures Follow(stack[..|stack| - 1] + [arr], obj, rest) == Follow(stack, obj, rest)
  {
    hide Complete, Drain;
    var st := stack[..|stack| - 1] + [arr];
    assert st[..|st| - 1] == stack[..|stack| - 1];
    SameButTop(st, stack, obj);
  }

  lemma {:induction false} ElementsParse(below: seq<Task>, arr: Task, got: seq<Reply>, todo: seq<Reply>, rest: seq<Byte>)
    requires arr.kind.KArray? && arr.elements == |got| + |todo| && todo != []
    requires forall i :: 0 <= i < |todo| ==> Encodable(todo[i]) && |below| + 2 + Depth(todo[i]) <= MAX_DEPTH
    ensures Drain(Filling(below, arr, got), EncodeAll(todo) + rest)
         == Follow(below + [arr], Array(arr.elements, got + todo), rest)
    decreases todo
  {
    hide Drain, Follow, Encodable, Depth, EncodeReply;
    var tail := EncodeAll(todo[1..]) + rest;
    assert EncodeAll(todo) + rest == EncodeReply(todo[0]) + tail;
    ReplyParses(Filling(below, arr, got), todo[0], tail);
    ElementStored(below, arr, got, todo[0], tail);
    if todo[1..] == [] {
      assert tail == rest && todo == [todo[0]];
    } else {
      ElementsParse(below, arr, got + [todo[0]], todo[1..], rest);
      assert got + [todo[0]] + todo[1..] == got + todo;
    }
  }

  // ----- Counts that do not fit an int

  lemma AnyHeaderStep(st: seq<Task>, n: nat, rest: seq<Byte>)
    requires st != [] && st[|st| - 1].kind.KArray? && |st| < MAX_DEPTH && HasRoom(st) && n > 0
    ensures var s, used := EncodeInt(n) + CRLF + rest, |EncodeInt(n)| + 2;
      used <= |s| && s[used..] == rest &&
      Step(st, s) == Next(SetTop(st, st[|st| - 1].(elements := AsInt(n))) + [Task(Unknown, -1, 0, [])], used, None)
  {
    hide Finish, Seek, ReadNumber, NoCrlf, EncodeInt, AsInt;
    IntReads(n);
    IntHasNoCr(n);
    LineFound(EncodeInt(n), rest);
  }

  /** The stack after the header of a top-level array of n elements. */
  function Announced(n: nat): seq<Task> { [ROOT.(kind := KArray, elements := AsInt(n)), Task(Unknown, -1, 0, [])] }

  lemma AnnouncedBy(n: nat, rest: seq<Byte>)
    requires n > 0
    ensures Drain([], [STAR] + Dec(n) + CRLF + rest) == Drain(Announced(n), rest)
  {
    hide Step, Dec, AsInt;
    var s := EncodeInt(n) + CRLF + rest;
    assert [STAR] + Dec(n) + CRLF + rest == [STAR] + s;
    RootDrains([STAR] + s);
    TypeRead([ROOT], STAR, s);
    var st := Typed([ROOT], KArray);
    assert st == [ROOT.(kind := KArray)];
    AnyHeaderStep(st, n, rest);
    assert SetTop(st, st[0].(elements := AsInt(n))) + [Task(Unknown, -1, 0, [])] == Announced(n);
  }

  /**
   The count is kept in an int: with the low 32 bits of the announced count not positive, as for 2^31 or 2^32, storing
   the first element fails; otherwise it is stored.
   */
  lemma CountMustFit(n: nat, r: Reply, rest: seq<Byte>)
    requires 0 < n < LONG_LIMIT && Encodable(r)
    ensures var d := Drain([], [STAR] + Dec(n) + CRLF + (EncodeReply(r) + rest));
      if AsInt(n) <= 0 then d == Drained([], [], [], Some(Crash))
      else if Depth(r) <= 7 then d == Follow(Announced(n), r, rest)
      else d == Drained([], [], [], Some(TooDeep))
  {
    hide Drain, Follow, Dec, AsInt, EncodeReply, Encodable, Depth;
    AnnouncedBy(n, EncodeReply(r) + rest);
    if AsInt(n) <= 0 {
      NoRoom(Announced(n), r, rest);
    } else if Depth(r) <= 7 {
      ReplyParses(Announced(n), r, rest);
    } else {
      DeepFails(Announced(n), r, rest);
    }
  }

  /** An array announced with 2^31 elements fails at its first one. */
  lemma TwoGigaElements(r: Reply, rest: seq<Byte>)
    requires Encodable(r)
    ensures Drain([], [STAR] + Dec(INT_LIMIT) + CRLF + (EncodeReply(r) + rest)) == Drained([], [], [], Some(Crash))
  {
    hide Drain, Dec, EncodeReply, Encodable, Follow;
    CountMustFit(INT_LIMIT, r, rest);
  }

  /** Whatever the item is, it cannot be stored in an array without room. */
  lemma NoRoom(stack: seq<Task>, r: Reply, rest: seq<Byte>)
    requires stack != [] && stack[|stack| - 1].kind.Unknown? && |stack| < MAX_DEPTH && !HasRoom(stack) && Encodable(r)
    ensures Drain(stack, EncodeReply(r) + rest) == Drained([], [], [], Some(Crash))
  {
    hide Drain, NoCrlf, EncodeInt, Dec, Step, HasRoom;
    match r
    case Status(str) => LineNoRoom(stack, PLUS, str, rest);
    case Error(str) => LineNoRoom(stack, MINUS, str, rest);
    case Integer(v) =>
      IntHasNoCr(v);
      LineNoRoom(stack, COLON, EncodeInt(v), rest);
    case Bulk(str) => BulkNoRoom(stack, str, rest);
    case Nil => NilNoRoom(stack, rest);
    case Array(n, rs) => ArrayNoRoom(stack, n, rs, rest);
  }

  lemma LineNoRoom(stack: seq<Task>, b: Byte, line: seq<Byte>, rest: seq<Byte>)
    requires stack != [] && stack[|stack| - 1].kind.Unknown? && !HasRoom(stack)
    requires b in {PLUS, MINUS, COLON} && NoCrlf(line)
    ensures Drain(stack, [b] + line + CRLF + rest) == Drained([], [], [], Some(Crash))
  {
    hide Drain, Seek, ReadNumber, NoCrlf, Complete;
    var s, st := line + CRLF + rest, Typed(stack, KindOf(b));
    assert [b] + line + CRLF + rest == [b] + s;
    TypeRead(stack, b, s);
    LineFound(line, rest);
    assert !HasRoom(st);
    FailDrains(st, s, Crash);
  }

  lemma BulkNoRoom(stack: seq<Task>, str: seq<Byte>, rest: seq<Byte>)
    requires stack != [] && stack[|stack| - 1].kind.Unknown? && !HasRoom(stack)
    ensures Drain(stack, EncodeArg(str) + rest) == Drained([], [], [], Some(Crash))
  {
    hide Step, Complete, Drain, Dec;
    var s, st := EncodeInt(|str|) + CRLF + (str + CRLF + rest), Typed(stack, KBulk);
    assert EncodeArg(str) + rest == [DOLLAR] + s;
    TypeRead(stack, DOLLAR, s);
    BulkStep(st, str, rest);
    assert !HasRoom(st);
    FailDrains(st, s, Crash);
  }

  lemma NilNoRoom(stack: seq<Task>, rest: seq<Byte>)
    requires stack != [] && stack[|stack| - 1].kind.Unknown? && !HasRoom(stack)
    ensures Drain(stack, EncodeReply(Nil) + rest) == Drained([], [], [], Some(Crash))
  {
    hide Drain, Complete, Seek, ReadNumber, NoCrlf, Dec;
    var s, st := EncodeInt(-1) + CRLF + rest, Typed(stack, KBulk);
    assert EncodeReply(Nil) + rest == [DOLLAR] + s;
    TypeRead(stack, DOLLAR, s);
    IntReads(-1);
    IntHasNoCr(-1);
    LineFound(EncodeInt(-1), rest);
    assert !HasRoom(st);
    FailDrains(st, s, Crash);
  }

  lemma ArrayNoRoom(stack: seq<Task>, n: nat, rs: seq<Reply>, rest: seq<Byte>)
    requires stack != [] && stack[|stack| - 1].kind.Unknown? && |stack| < MAX_DEPTH && !HasRoom(stack) && n == |rs|
    ensures Drain(stack, EncodeReply(Array(n, rs)) + rest) == Drained([], [], [], Some(Crash))
  {
    hide Drain, Complete, Seek, ReadNumber, NoCrlf, Dec, AsInt;
    var tail, st := EncodeAll(rs) + rest, Typed(stack, KArray);
    var s := EncodeInt(n) + CRLF + tail;
    assert EncodeReply(Array(n, rs)) + rest == [STAR] + s;
    TypeRead(stack, STAR, s);
    IntReads(n);
    IntHasNoCr(n);
    LineFound(EncodeInt(n), tail);
    assert !HasRoom(st);
    FailDrains(st, s, Crash);
  }

  lemma FailDrains(st: seq<Task>, s: seq<Byte>, w: Failure)
    requires st != [] && Step(st, s) == Fail(w)
    ensures Drain(st, s) == Drained([], [], [], Some(w))
  {
    hide Step;
  }

  // ----- Nested too deep

  /** With an array too deep, the parser fails when it gets there; nothing in that tree is delivered. */
  lemma {:induction false} DeepFails(stack: seq<Task>, r: Reply, rest: seq<Byte>)
    requires Awaits(stack) && stack[|stack| - 1].children == [] && Encodable(r)
    requires |stack| <= MAX_DEPTH < |stack| + Depth(r)
    ensures Drain(stack, EncodeReply(r) + rest) == Drained([], [], [], Some(TooDeep))
    decreases r
  {
    hide Drain, Dec, NoCrlf;
    var n, rs := r.count, r.elements;
    var tail := EncodeAll(rs) + rest;
    assert EncodeReply(r) + rest == [STAR] + Dec(n) + CRLF + tail;
    if |stack| == MAX_DEPTH {
      assert [STAR] + Dec(n) + CRLF + tail == [STAR] + (Dec(n) + CRLF + tail);
      TypeRead(stack, STAR, Dec(n) + CRLF + tail);
      FailsAtOnce(Typed(stack, KArray), Dec(n) + CRLF + tail);
    } else {
      assert rs == [] ==> DepthAll(rs) == 0;
      HeaderParses(stack, n, tail);
      DeepElementFails(stack[..|stack| - 1], stack[|stack| - 1].(kind := KArray, elements := n), [], rs, rest);
    }
  }

  lemma FailsAtOnce(st: seq<Task>, s: seq<Byte>)
    requires |st| == MAX_DEPTH && st[|st| - 1].kind.KArray?
    ensures Drain(st, s) == Drained([], [], [], Some(TooDeep))
  {
  }

  lemma {:induction false} DeepElementFails(below: seq<Task>, arr: Task, got: seq<Reply>, todo: seq<Reply>, rest: seq<Byte>)
    requires arr.kind.KArray? && arr.elements == |got| + |todo| && todo != [] && |below| + 2 <= MAX_DEPTH
    requires forall i :: 0 <= i < |todo| ==> Encodable(todo[i])
    requires |below| + 2 + DepthAll(todo) > MAX_DEPTH
    ensures Drain(Filling(below, arr, got), EncodeAll(todo) + rest) == Drained([], [], [], Some(TooDeep))
    decreases todo
  {
    hide Drain, Follow, Encodable, Depth, EncodeReply;
    var st, tail := Filling(below, arr, got), EncodeAll(todo[1..]) + rest;
    assert EncodeAll(todo) + rest == EncodeReply(todo[0]) + tail;
    if |st| + Depth(todo[0]) > MAX_DEPTH {
      DeepFails(st, todo[0], tail);
    } else {
      assert DepthAll(todo) == DepthAll(todo[1..]);
      assert todo[1..] != [];
      ReplyParses(st, todo[0], tail);
      ElementStored(below, arr, got, todo[0], tail);
      DeepElementFails(below, arr, got + [todo[0]], todo[1..], rest);
    }
  }

  // ----- Round trips

  /** A reply on the wire is read back as it was, and what follows it is read next, exactly when it has at most 8 levels. */
  lemma RoundTrip(r: Reply, rest: seq<Byte>)
    requires Encodable(r)
    ensures Depth(r) <= 8 ==>
      var d := Drain([], rest); Drain([], EncodeReply(r) + rest) == d.(replies := [r] + d.replies)
    ensures Depth(r) > 8 ==> Drain([], EncodeReply(r) + rest) == Drained([], [], [], Some(TooDeep))
  {
    hide Drain, EncodeReply, Encodable, Depth;
    RootDrains(EncodeReply(r) + rest);
    if Depth(r) <= 8 { ReplyParses([ROOT], r, rest); } else { DeepFails([ROOT], r, rest); }
  }

  /** k arrays of one element inside each other. */
  function Nested(k: nat): Reply { if k == 0 then Nil else Array(1, [Nested(k - 1)]) }

  lemma {:induction false} NestedDepth(k: nat)
    ensures Depth(Nested(k)) == k && Encodable(Nested(k))
  {
    if k > 0 {
      NestedDepth(k - 1);
      var rs := [Nested(k - 1)];
      assert rs[1..] == [] && DepthAll(rs[1..]) == 0;
      assert DepthAll(rs) == Depth(rs[0]);
    }
  }

  /** Nine levels are one too many. */
  lemma NineLevelsFail(rest: seq<Byte>)
    ensures Drain([], EncodeReply(Nested(9)) + rest) == Drained([], [], [], Some(TooDeep))
  {
    hide Drain, EncodeReply, Encodable, Depth, Nested;
    NestedDepth(9);
    RoundTrip(Nested(9), rest);
  }

  lemma RootDrains(s: seq<Byte>)
    ensures Drain([], s) == Drain([ROOT], s)
  {
    hide Step;
  }

  /** Without the condition on lines it fails: a status or error comes back as it was exactly when it holds no line end. */
  lemma LineRoundTrip(str: seq<Byte>)
    ensures |Drain([], EncodeReply(Status(str))).replies| >= 1
    ensures Drain([], EncodeReply(Status(str))).replies[0] == Status(str) <==> NoCrlf(str)
    ensures |Drain([], EncodeReply(Error(str))).replies| >= 1
    ensures Drain([], EncodeReply(Error(str))).replies[0] == Error(str) <==> NoCrlf(str)
  {
    hide Drain, NoCrlf;
    var p := Cut(str);
    var line, more := str[..p], if p == |str| then [] else str[p + 2..] + CRLF;
    assert str + CRLF == line + CRLF + more by {
      if p < |str| { assert str == line + CRLF + str[p + 2..]; }
    }
    assert EncodeReply(Status(str)) == EncodeReply(Status(line)) + more;
    assert EncodeReply(Error(str)) == EncodeReply(Error(line)) + more;
    assert line == str <==> p == |str|;
    RoundTrip(Status(line), more);
    RoundTrip(Error(line), more);
  }

  /** A status that is a line end comes back as an empty one. */
  lemma LineEndIsLost()
    ensures [Status([])] <= Drain([], EncodeReply(Status(CRLF))).replies
  {
    hide Drain;
    assert EncodeReply(Status(CRLF)) == EncodeReply(Status([])) + CRLF;
    RoundTrip(Status([]), CRLF);
  }

  /** Where the first line end inside str is, or its length. */
  ghost function Cut(str: seq<Byte>): (p: nat)
    ensures p <= |str| && NoCrlf(str[..p]) && (p == |str| <==> NoCrlf(str))
    ensures p < |str| ==> p + 2 <= |str| && str[p] == CR && str[p + 1] == LF
  {
    var p := Seek(str, 0);
    if p == -1 then assert str[..|str|] == str; |str| else p
  }

  // ----- The command formatters

  function Bulks(argv: Command): (rs: seq<Reply>)
    ensures |rs| == |argv| && forall i :: 0 <= i < |argv| ==> rs[i] == Bulk(argv[i])
  {
    seq(|argv|, i requires 0 <= i < |argv| => Bulk(argv[i]))
  }

  lemma {:induction false} ArgsAreBulks(argv: Command)
    ensures EncodeArgs(argv) == EncodeAll(Bulks(argv))
    decreases |argv|
  {
    hide EncodeArg;
    if argv != [] {
      EncodeArgsFront(argv);
      ArgsAreBulks(argv[1..]);
      assert Bulks(argv)[1..] == Bulks(argv[1..]);
    }
  }

  lemma {:induction false} FlatDepth(rs: seq<Reply>)
    requires forall i :: 0 <= i < |rs| ==> rs[i].Bulk?
    ensures DepthAll(rs) == 0
    decreases |rs|
  {
    if rs != [] { FlatDepth(rs[1..]); }
  }

  /** A formatted command is read back as the array of exactly its arguments, and the parser is ready for the next one. */
  lemma CommandRoundTrip(argv: Command, rest: seq<Byte>)
    requires |argv| < INT_LIMIT
    ensures var d := Drain([], rest);
      Drain([], EncodeCommand(argv) + rest) == d.(replies := [Array(|argv|, Bulks(argv))] + d.replies)
  {
    hide Drain, EncodeArgs, EncodeAll, Dec, EncodeArg, DepthAll;
    var r := Array(|argv|, Bulks(argv));
    ArgsAreBulks(argv);
    assert EncodeCommand(argv) == EncodeReply(r);
    FlatDepth(Bulks(argv));
    RoundTrip(r, rest);
  }

  lemma DecBy10000(v: nat)
    requires v >= 10000
    ensures |Dec(v)| == |Dec(v / 10000)| + 4
  {
    assert v / 10 / 10 == v / 100 && v / 100 / 10 == v / 1000 && v / 1000 / 10 == v / 10000;
    assert |Dec(v)| == |Dec(v / 10)| + 1;
    assert |Dec(v / 10)| == |Dec(v / 100)| + 1;
    assert |Dec(v / 100)| == |Dec(v / 1000)| + 1;
    assert |Dec(v / 1000)| == |Dec(v / 10000)| + 1;
  }

  lemma DecSmall(v: nat)
    requires v < 10000
    ensures |Dec(v)| == if v < 10 then 1 else if v < 100 then 2 else if v < 1000 then 3 else 4
  {
    assert |Dec(v)| == if v < 10 then 1 else |Dec(v / 10)| + 1;
    if v >= 10 { assert |Dec(v / 10)| == if v < 100 then 1 else |Dec(v / 10 / 10)| + 1; }
    if v >= 100 { assert |Dec(v / 10 / 10)| == if v < 1000 then 1 else |Dec(v / 10 / 10 / 10)| + 1; }
    if v >= 1000 { assert |Dec(v / 10 / 10 / 10)| == 1; }
  }

  /** countDigits. */
  method CountDigits(v: nat) returns (r: nat)
    ensures r == |Dec(v)|
  {
    var w, result := v, 1;
    while true
      invariant |Dec(v)| == |Dec(w)| + result - 1
      decreases w
    {
      if w < 10000 { DecSmall(w); }
      if w < 10 { return result; }
      if w < 100 { return result + 1; }
      if w < 1000 { return result + 2; }
      if w < 10000 { return result + 3; }
      DecBy10000(w);
      w := w / 10000;
      result := result + 4;
    }
  }

  /** bulklen: the bytes one argument takes. */
  method BulkLen(len: nat) returns (r: nat)
    ensures forall a: Arg :: |a| == len ==> r == |EncodeArg(a)|
  {
    var d := CountDigits(len);
    return 1 + d + 2 + len + 2;
  }

  /** The first loop of the formatters: the length is known before anything is written. */
  method TotalLength(argv: Command) returns (totlen: nat)
    ensures totlen == |EncodeCommand(argv)|
  {
    hide EncodeArg, Dec;
    var d := CountDigits(|argv|);
    totlen := 1 + d + 2;
    for j := 0 to |argv|
      invariant totlen == 1 + |Dec(|argv|)| + 2 + |EncodeArgs(argv[..j])|
    {
      assert argv[..j + 1][..j] == argv[..j];
      var n := BulkLen(|argv[j]|);
      totlen := totlen + n;
    }
    assert argv[..|argv|] == argv;
  }

  /** memcpy to the write position, which moves on. */
  method Write(cmd: array<Byte>, pos: nat, text: seq<Byte>) returns (next: nat)
    requires pos + |text| <= cmd.Length
    modifies cmd
    ensures next == pos + |text| && cmd[..next] == old(cmd[..pos]) + text
  {
    next := pos;
    for i := 0 to |text|
      invariant next == pos + i && cmd[..next] == old(cmd[..pos]) + text[..i]
    {
      cmd[next] := text[i];
      next := next + 1;
    }
  }

  /** sprintf writes a NUL behind the text. */
  method Sprintf(cmd: array<Byte>, pos: nat, text: seq<Byte>) returns (next: nat)
    requires pos + |text| < cmd.Length
    modifies cmd
    ensures next == pos + |text| && cmd[..next] == old(cmd[..pos]) + text
  {
    next := Write(cmd, pos, text);
    cmd[next] := 0;
  }

  lemma {:induction false} ArgsGrow(argv: Command, j: nat)
    requires j < |argv|
    ensures EncodeArgs(argv[..j + 1]) == EncodeArgs(argv[..j]) + EncodeArg(argv[j])
    ensures |EncodeArgs(argv[..j])| + |EncodeArg(argv[j])| <= |EncodeArgs(argv)|
    decreases |argv|
  {
    hide EncodeArg;
    assert argv[..j + 1][..j] == argv[..j];
    if j + 1 < |argv| {
      var init := argv[..|argv| - 1];
      ArgsGrow(init, j);
      assert init[..j] == argv[..j];
    } else {
      assert argv[..j + 1] == argv;
    }
  }

  /** The body of the second loop: one argument. */
  method WriteArg(cmd: array<Byte>, start: nat, a: Arg) returns (pos: nat)
    requires start + |EncodeArg(a)| < cmd.Length
    modifies cmd
    ensures pos == start + |EncodeArg(a)| && cmd[..pos] == old(cmd[..start]) + EncodeArg(a)
  {
    hide Dec;
    pos := Sprintf(cmd, start, [DOLLAR] + Dec(|a|) + CRLF);
    pos := Write(cmd, pos, a);
    ghost var before := cmd[..pos];
    cmd[pos] := CR;
    cmd[pos + 1] := LF;
    pos := pos + 2;
    assert cmd[..pos] == before + CRLF;
  }

  method WriteArgs(cmd: array<Byte>, start: nat, argv: Command) returns (pos: nat)
    requires start + |EncodeArgs(argv)| < cmd.Length
    modifies cmd
    ensures pos == start + |EncodeArgs(argv)| && cmd[..pos] == old(cmd[..start]) + EncodeArgs(argv)
  {
    hide EncodeArgs, EncodeArg;
    NoArgs();
    pos := start;
    for j := 0 to |argv|
      invariant pos == start + |EncodeArgs(argv[..j])| <= start + |EncodeArgs(argv)|
      invariant cmd[..pos] == old(cmd[..start]) + EncodeArgs(argv[..j])
    {
      ArgsGrow(argv, j);
      pos := WriteArg(cmd, pos, argv[j]);
    }
    assert argv[..|argv|] == argv;
  }

  lemma NoArgs()
    ensures EncodeArgs([]) == []
  {
  }

  /**
   redisFormatCommandArgv: every write stays inside the totlen + 1 bytes allocated, and together they make the
   command and a final NUL.
   */
  method RedisFormatCommandArgv(argv: Command) returns (cmd: array<Byte>, totlen: nat)
    requires |EncodeCommand(argv)| < INT_LIMIT
    ensures fresh(cmd) && cmd[..] == EncodeCommand(argv) + [0] && totlen == |EncodeCommand(argv)|
  {
    hide Dec, EncodeArgs, EncodeArg;
    totlen := TotalLength(argv);
    cmd := new Byte[totlen + 1];
    var head := [STAR] + Dec(|argv|) + CRLF;
    var pos := Sprintf(cmd, 0, head);
    pos := WriteArgs(cmd, pos, argv);
    assert pos == totlen;
    cmd[pos] := 0;
    assert cmd[..] == cmd[..pos] + [0];
  }

  /** redisFormatSdsCommandArgv: the sds has exactly the length computed before, which is returned as an int. */
  method RedisFormatSdsCommandArgv(argv: Command) returns (cmd: seq<Byte>, len: int)
    ensures cmd == EncodeCommand(argv) && len == AsInt(|cmd|)
  {
    hide Dec, EncodeArgs;
    var totlen := TotalLength(argv);
    var head := [STAR] + Dec(|argv|) + CRLF;
    cmd := head;
    NoArgs();
    for j := 0 to |argv|
      invariant cmd == head + EncodeArgs(argv[..j])
    {
      ArgsGrow(argv, j);
      cmd := cmd + ([DOLLAR] + Dec(|argv[j]|) + CRLF);
      cmd := cmd + argv[j];
      cmd := cmd + CRLF;
    }
    assert argv[..|argv|] == argv;
    assert |cmd| == totlen;
    len := AsInt(totlen);
  }
}
