/**
 Exactly which reply trees come back from the wire.  A tree that does not is met at its first bad item: what the parser
 stores for it is not what stands there, and nothing read later mends that.
 */
module RespTree {
  import opened Optional
  import opened Bytes
  import opened AofCommand
  import opened RespParser
  import opened RespFormat

  /** Counts are true, and counts and numbers are read without overflow of 64 bits. */
  predicate InRange(r: Reply)
    decreases r
  {
    match r
    case Integer(v) => -LONG_LIMIT < v < LONG_LIMIT
    case Array(count, elements) =>
      count == |elements| < LONG_LIMIT && forall i :: 0 <= i < |elements| ==> InRange(elements[i])
    case _ => true
  }

  /** No status or error in the tree holds a line end. */
  predicate CleanLines(r: Reply)
    decreases r
  {
    match r
    case Status(str) => NoCrlf(str)
    case Error(str) => NoCrlf(str)
    case Array(_, elements) => forall i :: 0 <= i < |elements| ==> CleanLines(elements[i])
    case _ => true
  }

  /** Every array in the tree has fewer than 2^31 elements. */
  predicate SmallArrays(r: Reply)
    decreases r
  {
    r.Array? ==> |r.elements| < INT_LIMIT && forall i :: 0 <= i < |r.elements| ==> SmallArrays(r.elements[i])
  }

  lemma {:induction false} EncodableIs(r: Reply)
    ensures Encodable(r) <==> InRange(r) && CleanLines(r) && SmallArrays(r)
    decreases r
  {
    if r.Array? {
      forall i | 0 <= i < |r.elements|
        ensures Encodable(r.elements[i]) <==>
          InRange(r.elements[i]) && CleanLines(r.elements[i]) && SmallArrays(r.elements[i])
      {
        EncodableIs(r.elements[i]);
      }
    }
  }

  // ----- What the stack has of a tree

  /** Everything stored so far is as in r, and the top task is for an item of r. */
  predicate On(stack: seq<Task>, r: Reply)
    decreases |stack|
  {
    |stack| >= 2 ==>
      && r.Array? && stack[0].elements == r.count == |r.elements|
      && 0 <= stack[1].idx < |r.elements| && stack[0].children == r.elements[..stack[1].idx]
      && On(stack[1..], r.elements[stack[1].idx])
  }

  /** The item of r that the top task is for. */
  function Target(stack: seq<Task>, r: Reply): Reply
    requires stack != [] && On(stack, r)
    decreases |stack|
  {
    if |stack| == 1 then r else Target(stack[1..], r.elements[stack[1].idx])
  }

  /** On and Target, seen from the top. */
  lemma {:induction false} OnTop(stack: seq<Task>, r: Reply)
    requires |stack| >= 2
    ensures var k := |stack| - 1;
      On(stack, r) <==>
      && On(stack[..k], r)
      && var t := Target(stack[..k], r);
      && t.Array? && stack[k - 1].elements == t.count == |t.elements|
      && 0 <= stack[k].idx < |t.elements| && stack[k - 1].children == t.elements[..stack[k].idx]
    ensures On(stack, r) ==>
      Target(stack, r) == Target(stack[..|stack| - 1], r).elements[stack[|stack| - 1].idx]
    decreases |stack|
  {
    var k := |stack| - 1;
    if |stack| > 2 {
      assert stack[..k][1..] == stack[1..][..k - 1];
      assert stack[..k][0] == stack[0] && stack[..k][1] == stack[1];
      if stack[1].idx >= 0 && r.Array? && stack[1].idx < |r.elements| {
        OnTop(stack[1..], r.elements[stack[1].idx]);
      }
    }
  }

  /** They do not depend on what the top task has collected. */
  lemma OnSame(a: seq<Task>, b: seq<Task>, r: Reply)
    requires a != [] && |a| == |b| && a[..|a| - 1] == b[..|b| - 1] && a[|a| - 1].idx == b[|b| - 1].idx
    ensures On(a, r) <==> On(b, r)
    ensures On(a, r) ==> Target(a, r) == Target(b, r)
  {
    if |a| >= 2 {
      hide On, Target;
      OnTop(a, r);
      OnTop(b, r);
      assert a[|a| - 2] == a[..|a| - 1][|a| - 2] == b[|b| - 2];
    }
  }

  /** Below the top there is room everywhere. */
  lemma {:induction false} OnHasRoom(stack: seq<Task>, r: Reply)
    requires On(stack, r)
    ensures forall i :: 0 <= i < |stack| - 1 ==> stack[i].elements > 0
    decreases |stack|
  {
    if |stack| >= 2 {
      OnHasRoom(stack[1..], r.elements[stack[1].idx]);
      assert forall i :: 1 <= i < |stack| - 1 ==> stack[i] == stack[1..][i - 1];
    }
  }

  // ----- What is stored wrong stays wrong

  predicate FirstIs(d: Drained, r: Reply) { |d.replies| >= 1 && d.replies[0] == r }

  /** If storing obj leads to r, or leaves the stack on r, then the stack was on r and obj is what stands there. */
  lemma {:induction false} CompleteReflects(stack: seq<Task>, obj: Reply, r: Reply)
    requires stack != [] && Links(stack)
    ensures var (st, out) := Complete(stack, obj);
      && (out.None? ==> st != [])
      && (out == Some(r) || (out.None? && On(st, r)) ==> On(stack, r) && Target(stack, r) == obj)
    decreases |stack|
  {
    if |stack| > 1 {
      var k := |stack| - 1;
      var rest, cur, prv := stack[..k], stack[k], stack[k - 1];
      assert Link(stack[k - 1], stack[k]);
      assert Links(rest) by { assert forall i, j :: 0 <= i && j == i + 1 < |rest| ==> Link(stack[i], stack[j]); }
      OnTop(stack, r);
      if cur.idx == prv.elements - 1 {
        CompleteReflects(rest, Array(prv.elements, prv.children + [obj]), r);
        assert (prv.children + [obj])[..cur.idx] == prv.children;
      } else {
        NextReflects(stack, obj, r);
      }
    }
  }

  lemma NextReflects(stack: seq<Task>, obj: Reply, r: Reply)
    requires |stack| > 1 && Link(stack[|stack| - 2], stack[|stack| - 1])
    ensures var k := |stack| - 1;
      var parent := stack[k - 1].(children := stack[k - 1].children + [obj]);
      var st := stack[..k][..k - 1] + [parent, Task(Unknown, -1, stack[k].idx + 1, [])];
      On(st, r) ==> On(stack, r) && Target(stack, r) == obj
  {
    hide On, Target;
    var k := |stack| - 1;
    var prv, idx := stack[k - 1], stack[k].idx;
    var parent := prv.(children := prv.children + [obj]);
    var st := stack[..k][..k - 1] + [parent, Task(Unknown, -1, idx + 1, [])];
    OnTop(st, r);
    OnTop(stack, r);
    assert st[..k][..k - 1] == stack[..k][..k - 1];
    OnSame(st[..k], stack[..k], r);
    if On(st, r) {
      var es := Target(st[..k], r).elements;
      assert prv.children + [obj] == es[..idx + 1];
      assert prv.children == (prv.children + [obj])[..idx] == es[..idx + 1][..idx] == es[..idx];
      assert obj == (prv.children + [obj])[idx] == es[..idx + 1][idx] == es[idx];
    }
  }

  /** A step neither delivers r nor gets onto it from a stack that is not on it. */
  lemma StepReflects(stack: seq<Task>, s: seq<Byte>, r: Reply)
    requires stack != [] && StackOk(stack) && Step(stack, s).Next?
    ensures var st, out := Step(stack, s).stack, Step(stack, s).out;
      && (out.None? ==> st != [])
      && (out == Some(r) || (out.None? && On(st, r)) ==> On(stack, r))
  {
    hide On, Target, Complete, Seek, ReadNumber, AsInt;
    var top, k := stack[|stack| - 1], |stack| - 1;
    var st := Step(stack, s).stack;
    if top.kind.Unknown? {
      OnSame(st, stack, r);
    } else {
      forall obj
        ensures var (u, out) := Complete(stack, obj);
          && (out.None? ==> u != [])
          && (out == Some(r) || (out.None? && On(u, r)) ==> On(stack, r))
      {
        CompleteReflects(stack, obj, r);
      }
      if |st| == |stack| + 1 && st[..|stack|][..k] == stack[..k] && st[k].idx == top.idx {
        OnTop(st, r);
        OnSame(st[..|stack|], stack, r);
      }
    }
  }

  lemma {:induction false} Spoiled(stack: seq<Task>, s: seq<Byte>, r: Reply)
    requires stack != [] && StackOk(stack) && !On(stack, r)
    ensures !FirstIs(Drain(stack, s), r)
    decreases |s|
  {
    hide Step, On, StackOk;
    StepConsumes(stack, s);
    if Step(stack, s).Next? {
      StepOk(stack, s);
      StepReflects(stack, s, r);
      var st, n := Step(stack, s).stack, Step(stack, s).n;
      if Step(stack, s).out.None? { Spoiled(st, s[n..], r); }
    }
  }

  /** Storing anything but what stands there spoils the tree for good. */
  lemma WrongItem(stack: seq<Task>, obj: Reply, rest: seq<Byte>, r: Reply)
    requires stack != [] && StackOk(stack) && On(stack, r) && obj != Target(stack, r)
    ensures !FirstIs(Follow(stack, obj, rest), r)
  {
    hide Drain, Complete, On, Target;
    CompleteReflects(stack, obj, r);
    OnHasRoom(stack, r);
    CompleteOk(stack, obj);
    var (st, out) := Complete(stack, obj);
    if out.None? { Spoiled(st, rest, r); }
  }

  // ----- The first bad item

  /** The item comes back where the stack has this many tasks. */
  predicate Fits(x: Reply, level: nat) { Encodable(x) && level + Depth(x) <= MAX_DEPTH }

  /** A line that holds a line end is stored short. */
  lemma BadLine(stack: seq<Task>, x: Reply, rest: seq<Byte>, r: Reply)
    requires Awaits(stack) && StackOk(stack) && On(stack, r) && Target(stack, r) == x
    requires (x.Status? || x.Error?) && !NoCrlf(x.str)
    ensures !FirstIs(Drain(stack, EncodeReply(x) + rest), r)
  {
    hide Drain, Follow, NoCrlf, On, Target, StackOk;
    var str := x.str;
    var p := Cut(str);
    var line, more := str[..p], str[p + 2..] + CRLF + rest;
    var b := if x.Status? then PLUS else MINUS;
    assert str == line + CRLF + str[p + 2..];
    assert EncodeReply(x) + rest == [b] + line + CRLF + more;
    LineParses(stack, b, line, more);
    WrongItem(stack, if x.Status? then Status(line) else Error(line), more, r);
  }

  /** A count of 2^31 or more is kept as another number. */
  lemma BadCount(stack: seq<Task>, n: nat, tail: seq<Byte>, r: Reply)
    requires Awaits(stack) && StackOk(stack) && |stack| < MAX_DEPTH && On(stack, r)
    requires Target(stack, r).Array? && Target(stack, r).count == n >= INT_LIMIT
    ensures !FirstIs(Drain(stack, [STAR] + Dec(n) + CRLF + tail), r)
  {
    hide Drain, On, Target, StackOk, Dec, Step;
    var s, st, k := EncodeInt(n) + CRLF + tail, Typed(stack, KArray), |stack| - 1;
    assert [STAR] + Dec(n) + CRLF + tail == [STAR] + s;
    TypeRead(stack, STAR, s);
    var arr := st[k].(elements := AsInt(n));
    AnyHeaderStep(st, n, tail);
    var next := SetTop(st, arr) + [Task(Unknown, -1, 0, [])];
    DrainNext(st, s, next, |EncodeInt(n)| + 2);
    FreshTop(stack);
    SetTopOk(stack, st[k]);
    PushOk(st, arr);
    assert next[..k + 1] == SetTop(st, arr) && next[..k + 1][..k] == stack[..k];
    OnTop(next, r);
    OnSame(next[..k + 1], stack, r);
    Spoiled(next, tail, r);
  }

  lemma DrainNext(st: seq<Task>, s: seq<Byte>, next: seq<Task>, n: nat)
    requires st != [] && Step(st, s) == Next(next, n, None) && n <= |s|
    ensures Drain(st, s) == Drain(next, s[n..])
  {
    hide Step;
  }

  lemma {:induction false} BadItem(stack: seq<Task>, x: Reply, rest: seq<Byte>, r: Reply)
    requires stack != [] && stack[|stack| - 1].kind.Unknown? && StackOk(stack) && On(stack, r) && Target(stack, r) == x
    requires InRange(x) && !Fits(x, |stack|)
    ensures !FirstIs(Drain(stack, EncodeReply(x) + rest), r)
    decreases x
  {
    hide Drain, On, Target, Dec, NoCrlf;
    OnHasRoom(stack, r);
    if x.Status? || x.Error? {
      BadLine(stack, x, rest, r);
    } else {
      var n, rs := x.count, x.elements;
      var tail := EncodeAll(rs) + rest;
      assert EncodeReply(x) + rest == [STAR] + Dec(n) + CRLF + tail;
      if |stack| == MAX_DEPTH {
        assert [STAR] + Dec(n) + CRLF + tail == [STAR] + (Dec(n) + CRLF + tail);
        TypeRead(stack, STAR, Dec(n) + CRLF + tail);
        FailsAtOnce(Typed(stack, KArray), Dec(n) + CRLF + tail);
      } else if n >= INT_LIMIT {
        BadCount(stack, n, tail, r);
      } else {
        BadArray(stack, x, rest, r);
      }
    }
  }

  lemma {:induction false} BadArray(stack: seq<Task>, x: Reply, rest: seq<Byte>, r: Reply)
    requires Awaits(stack) && StackOk(stack) && On(stack, r) && Target(stack, r) == x && |stack| < MAX_DEPTH
    requires x.Array? && InRange(x) && |x.elements| < INT_LIMIT && !Fits(x, |stack|)
    ensures !FirstIs(Drain(stack, EncodeReply(x) + rest), r)
    decreases x, 0
  {
    hide Drain, On, Target, Dec;
    var n, rs := x.count, x.elements;
    var tail, k := EncodeAll(rs) + rest, |stack| - 1;
    assert EncodeReply(x) + rest == [STAR] + Dec(n) + CRLF + tail;
    FreshTop(stack);
    SomeMisfit(x, |stack|);
    HeaderParses(stack, n, tail);
    var arr := stack[k].(kind := KArray, elements := n);
    ArrayOpened(stack, x, r);
    BadElements(stack[..k], arr, [], rs, rest, x, r);
  }

  /** The stack is in the array x of r. */
  predicate Inside(stack: seq<Task>, x: Reply, r: Reply) {
    |stack| >= 2 && On(stack, r) && On(stack[..|stack| - 1], r) && Target(stack[..|stack| - 1], r) == x
  }

  /** An array that does not fit, but could be opened, has an element that does not fit. */
  lemma SomeMisfit(x: Reply, level: nat)
    requires x.Array? && InRange(x) && |x.elements| < INT_LIMIT && level < MAX_DEPTH && !Fits(x, level)
    ensures exists i :: 0 <= i < |x.elements| && !Fits(x.elements[i], level + 1)
  {
    assert x.elements == [] ==> DepthAll(x.elements) == 0;
  }

  /** The stack just after the header of an array is still on the tree, now for its first element. */
  lemma ArrayOpened(stack: seq<Task>, x: Reply, r: Reply)
    requires Awaits(stack) && StackOk(stack) && On(stack, r) && Target(stack, r) == x && |stack| < MAX_DEPTH
    requires x.Array? && x.count == |x.elements| > 0
    ensures var k := |stack| - 1;
      var st := Filling(stack[..k], stack[k].(kind := KArray, elements := x.count), []);
      StackOk(st) && Inside(st, x, r)
  {
    hide On, Target, StackOk;
    var k := |stack| - 1;
    var arr := stack[k].(kind := KArray, elements := x.count);
    var st := Filling(stack[..k], arr, []);
    FreshTop(stack);
    PushOk(stack, arr);
    assert st == SetTop(stack, arr) + [Task(Unknown, -1, 0, [])];
    assert st[..k + 1][..k] == stack[..k];
    OnSame(st[..k + 1], stack, r);
    OnTop(st, r);
    assert x.elements[..0] == [];
  }

  /** Storing the element that stands there keeps the stack on the tree, for the next element. */
  lemma ElementKept(below: seq<Task>, arr: Task, got: seq<Reply>, x: Reply, r: Reply)
    requires var st := Filling(below, arr, got); StackOk(st) && Inside(st, x, r)
    requires x.Array? && |got| + 1 < |x.elements| && got + [x.elements[|got|]] == x.elements[..|got| + 1]
    ensures var st := Filling(below, arr, got + [x.elements[|got|]]);
      StackOk(st) && Inside(st, x, r)
  {
    hide On, Target;
    var k, more := |below|, got + [x.elements[|got|]];
    var a, b := Filling(below, arr, got), Filling(below, arr, more);
    assert a[..k + 1][..k] == below == b[..k + 1][..k];
    OnTop(a, r);
    OnSame(a[..k + 1], b[..k + 1], r);
    OnTop(b, r);
    KeptOk(below, arr, got, more);
  }

  lemma KeptOk(below: seq<Task>, arr: Task, got: seq<Reply>, more: seq<Reply>)
    requires StackOk(Filling(below, arr, got)) && |more| < arr.elements
    ensures StackOk(Filling(below, arr, more))
  {
    var k := |below|;
    var a, b := Filling(below, arr, got), Filling(below, arr, more);
    assert Link(a[k], a[k + 1]);
    forall i, j | 0 <= i && j == i + 1 < |b|
      ensures Link(b[i], b[j])
    {
      if j <= k { assert Link(a[i], a[j]); }
    }
    forall i | 0 <= i < |b| - 2
      ensures b[i].elements > 0
    {
      assert a[i].elements > 0;
    }
  }

  lemma {:induction false} BadElements(below: seq<Task>, arr: Task, got: seq<Reply>, todo: seq<Reply>, rest: seq<Byte>,
                                       x: Reply, r: Reply)
    requires arr.kind.KArray? && arr.elements == |got| + |todo| && |below| + 2 <= MAX_DEPTH
    requires forall i :: 0 <= i < |todo| ==> InRange(todo[i])
    requires exists i :: 0 <= i < |todo| && !Fits(todo[i], |below| + 2)
    requires var st := Filling(below, arr, got); StackOk(st) && Inside(st, x, r)
    requires x.Array? && x.elements == got + todo
    ensures !FirstIs(Drain(Filling(below, arr, got), EncodeAll(todo) + rest), r)
    decreases todo
  {
    hide Drain, On, Target, Follow, EncodeReply, StackOk, Encodable, Depth, InRange;
    var st, tail, k := Filling(below, arr, got), EncodeAll(todo[1..]) + rest, |below|;
    assert EncodeAll(todo) + rest == EncodeReply(todo[0]) + tail;
    OnTop(st, r);
    if !Fits(todo[0], |st|) {
      BadItem(st, todo[0], tail, r);
    } else {
      OnHasRoom(st, r);
      ReplyParses(st, todo[0], tail);
      ElementStored(below, arr, got, todo[0], tail);
      var more := got + [todo[0]];
      assert more + todo[1..] == got + todo;
      assert x.elements[..|more|] == more;
      assert exists i :: 0 <= i < |todo[1..]| && !Fits(todo[1..][i], |below| + 2) by {
        var i :| 0 <= i < |todo| && !Fits(todo[i], |below| + 2);
        assert todo[1..][i - 1] == todo[i];
      }
      ElementKept(below, arr, got, x, r);
      BadElements(below, arr, more, todo[1..], rest, x, r);
    }
  }

  // ----- Exactly which trees come back

  /**
   Of all trees with true counts and numbers that fit 64 bits: parsing what is on the wire yields the tree first if and
   only if it has at most eight array levels, no line in it holds a line end, and every array in it has fewer than 2^31
   elements.
   */
  lemma TreeRoundTrip(r: Reply, rest: seq<Byte>)
    requires InRange(r)
    ensures FirstIs(Drain([], EncodeReply(r) + rest), r) <==> Depth(r) <= 8 && CleanLines(r) && SmallArrays(r)
  {
    hide Drain, EncodeReply, Depth, InRange, CleanLines, SmallArrays, Encodable;
    EncodableIs(r);
    if Encodable(r) && Depth(r) <= 8 {
      RoundTrip(r, rest);
    } else {
      RootDrains(EncodeReply(r) + rest);
      BadItem([ROOT], r, rest, r);
    }
  }

  /** Of arrays whose elements come back, exactly those with a count below 2^31 do. */
  lemma CountUsableExactly(rs: seq<Reply>, rest: seq<Byte>)
    requires 0 < |rs| < LONG_LIMIT && forall i :: 0 <= i < |rs| ==> Encodable(rs[i]) && Depth(rs[i]) <= 7
    ensures FirstIs(Drain([], [STAR] + Dec(|rs|) + CRLF + (EncodeAll(rs) + rest)), Array(|rs|, rs)) <==> |rs| < INT_LIMIT
  {
    hide Drain, Encodable, Depth, InRange, CleanLines, SmallArrays, Dec;
    var r := Array(|rs|, rs);
    assert [STAR] + Dec(|rs|) + CRLF + (EncodeAll(rs) + rest) == EncodeReply(r) + rest;
    ArrayParts(rs);
    TreeRoundTrip(r, rest);
  }

  lemma ArrayParts(rs: seq<Reply>)
    requires 0 < |rs| < LONG_LIMIT && forall i :: 0 <= i < |rs| ==> Encodable(rs[i]) && Depth(rs[i]) <= 7
    ensures var r := Array(|rs|, rs);
      InRange(r) && CleanLines(r) && Depth(r) <= 8 && (SmallArrays(r) <==> |rs| < INT_LIMIT)
  {
    hide Encodable;
    forall i | 0 <= i < |rs|
      ensures InRange(rs[i]) && CleanLines(rs[i]) && SmallArrays(rs[i])
    {
      EncodableIs(rs[i]);
    }
  }

  /**
   What becomes of a larger count whose low 32 bits are positive: the array is closed after that many elements, and
   those that follow are replies of their own.
   */
  lemma CountIsCut(n: nat, rs: seq<Reply>, rest: seq<Byte>)
    requires 0 < n < LONG_LIMIT && AsInt(n) == |rs| > 0
    requires forall i :: 0 <= i < |rs| ==> Encodable(rs[i]) && Depth(rs[i]) <= 7
    ensures var d := Drain([], rest);
      Drain([], [STAR] + Dec(n) + CRLF + (EncodeAll(rs) + rest)) == d.(replies := [Array(|rs|, rs)] + d.replies)
  {
    hide Drain, Encodable, Depth, Dec, AsInt;
    AnnouncedBy(n, EncodeAll(rs) + rest);
    var arr := ROOT.(kind := KArray, elements := AsInt(n));
    assert Announced(n) == Filling([], arr, []);
    ElementsParse([], arr, [], rs, rest);
    assert [] + rs == rs && [] + [arr] == [arr];
  }

  /** An array announced with 2^32 + 1 elements comes back with one; its second element is the next reply. */
  lemma FourGigaAndOne(r: Reply, rest: seq<Byte>)
    requires Encodable(r) && Depth(r) <= 7
    ensures var d := Drain([], rest);
      Drain([], [STAR] + Dec(0x1_0000_0001) + CRLF + (EncodeReply(r) + rest)) == d.(replies := [Array(1, [r])] + d.replies)
  {
    hide Drain, Encodable, Depth, Dec, EncodeReply;
    assert EncodeAll([r]) == EncodeReply(r) + EncodeAll([]) == EncodeReply(r);
    CountIsCut(0x1_0000_0001, [r], rest);
  }

  /** After any replies that come back, a byte that starts no reply is an error; the replies are kept, the rest is not read. */
  lemma {:induction false} JunkFails(rs: seq<Reply>, b: Byte, rest: seq<Byte>)
    requires forall i :: 0 <= i < |rs| ==> Encodable(rs[i]) && Depth(rs[i]) <= 8
    requires b !in {PLUS, MINUS, COLON, DOLLAR, STAR}
    ensures Drain([], EncodeAll(rs) + ([b] + rest)) == Drained(rs, [], [], Some(BadByte(b)))
    decreases |rs|
  {
    hide Depth, Encodable, EncodeReply;
    if rs == [] {
      assert EncodeAll(rs) + ([b] + rest) == [b] + rest;
    } else {
      hide Drain;
      var more := EncodeAll(rs[1..]) + ([b] + rest);
      assert EncodeAll(rs) + ([b] + rest) == EncodeReply(rs[0]) + more;
      RoundTrip(rs[0], more);
      JunkFails(rs[1..], b, rest);
    }
  }
}
