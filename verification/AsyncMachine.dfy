/**
 The asynchronous client as a machine on values: what each call, each event and each callback that calls back into
 the client does, and what that comes to over any run.
 */
module AsyncMachine {
  import opened Optional
  import opened RespParser

  /** A callback; `id` counts the accepted commands, `fn` tells whether there is a function to call. */
  datatype Callback = Callback(id: nat, fn: bool)

  /** What a callback may do: issue a command, disconnect, or free the context. */
  datatype Call = Issue(fn: bool, len: nat) | AskDisconnect | AskFree

  /** What the n-th callback to run does. */
  type Behaviour = nat -> seq<Call>

  /** A callback handed its reply, or NULL. */
  datatype Served = Served(cb: Callback, reply: Option<Reply>)

  datatype Event =
    | UserCommand(fn: bool, len: nat)
    | UserDisconnect
    | UserFree
    | Readable(arrived: Option<seq<Reply>>, broken: bool)
    | Writable(n: Option<nat>)
    | ConnectFails

  /**
   The context between calls.  `accepted` are the callbacks of the commands accepted so far, `received` the replies
   matched to them, `served` the callbacks taken from the queue with what they were handed, `ran` those called.
   */
  datatype State = State(
    disconnecting: bool,
    freeing: bool,
    err: bool,
    obuf: nat,
    queue: seq<Callback>,
    freed: bool,
    aborted: bool,
    turn: nat,
    accepted: seq<Callback>,
    received: seq<Reply>,
    served: seq<Served>,
    ran: seq<Served>)

  const START := State(false, false, false, 0, [], false, false, 0, [], [], [], [])

  /** The context is about to be closed. */
  predicate Closing(s: State) { s.disconnecting || s.freeing }

  /** Torn down, or stopped by an assertion. */
  predicate Over(s: State) { s.freed || s.aborted }

  // ----- Calls

  /** __redisAsyncCommand for an ordinary command. */
  function Accept(s: State, fn: bool, len: nat): State {
    if Closing(s) then s else
      var cb := Callback(|s.accepted|, fn);
      s.(queue := s.queue + [cb], accepted := s.accepted + [cb], obuf := s.obuf + len)
  }

  /** Bytes accepted and then written leave the buffer as it was; a command written in two parts goes out whole. */
  lemma WrittenIsGone(b: Behaviour, s: State, fn: bool, len: nat, n: nat)
    requires !Over(s) && !Closing(s) && n <= len
    ensures var t := OnEvent(b, s, UserCommand(fn, len));
      && OnEvent(b, t, Writable(Some(len))).obuf == s.obuf
      && OnEvent(b, OnEvent(b, t, Writable(Some(n))), Writable(Some(len - n))) == OnEvent(b, t, Writable(Some(len)))
      && OnEvent(b, t, Writable(Some(len))).queue == s.queue + [Callback(|s.accepted|, fn)]
  {
    hide Teardown, OnRead;
  }

  /** One call made by a callback: a disconnect or a free is put off. */
  function Perform(s: State, call: Call): State {
    match call
    case Issue(fn, len) => Accept(s, fn, len)
    case AskDisconnect => s.(disconnecting := true)
    case AskFree => s.(freeing := true)
  }

  function PerformAll(s: State, calls: seq<Call>): (t: State)
    ensures t.turn == s.turn
    ensures Closing(s) ==> Closing(t) && t.queue == s.queue && t.accepted == s.accepted
    decreases |calls|
  {
    if calls == [] then s else PerformAll(Perform(s, calls[0]), calls[1..])
  }

  lemma PerformNext(s: State, calls: seq<Call>, i: nat)
    requires i < |calls|
    ensures PerformAll(s, calls[i..]) == PerformAll(Perform(s, calls[i]), calls[i + 1..])
  {
    hide Perform;
    assert calls[i..][1..] == calls[i + 1..];
  }

  lemma PerformNone(s: State, calls: seq<Call>)
    ensures PerformAll(s, calls[|calls|..]) == s
  {
  }

  /** __redisRunCallback. */
  function RunCallback(b: Behaviour, s: State, cb: Callback, reply: Option<Reply>): (t: State)
    ensures Closing(s) ==> Closing(t) && t.queue == s.queue && t.accepted == s.accepted
  {
    if !cb.fn then s else PerformAll(s.(ran := s.ran + [Served(cb, reply)], turn := s.turn + 1), b(s.turn))
  }

  /** The oldest callback leaves the queue, to be handed this. */
  function TakeNext(s: State, reply: Option<Reply>): State
    requires s.queue != []
  {
    s.(queue := s.queue[1..],
       served := s.served + [Served(s.queue[0], reply)],
       received := s.received + if reply.Some? then [reply.value] else [])
  }

  function Serve(b: Behaviour, s: State, reply: Option<Reply>): (t: State)
    requires s.queue != []
    ensures Closing(s) ==> Closing(t) && t.queue == s.queue[1..] && t.accepted == s.accepted
  {
    RunCallback(b, TakeNext(s, reply), s.queue[0], reply)
  }

  /** __redisAsyncFree: the callbacks left get NULL, in order. */
  function Teardown(b: Behaviour, s: State): State
    requires Closing(s)
    decreases |s.queue|
  {
    if s.queue == [] then s.(freed := true) else Teardown(b, Serve(b, s, None))
  }

  /** __redisAsyncDisconnect after an error. */
  function Drop(b: Behaviour, s: State): State { Teardown(b, s.(err := true, disconnecting := true)) }

  // ----- Events

  /** One turn of the loop of redisProcessCallbacks; a reply nobody waits for must be an error. */
  function OnReply(b: Behaviour, s: State, reply: Reply): State {
    if s.queue == [] then if reply.Error? then Drop(b, s) else s.(aborted := true)
    else
      var t := Serve(b, s, Some(reply));
      if s.queue[0].fn && t.freeing then Teardown(b, t) else t
  }

  function OnReplies(b: Behaviour, s: State, arrived: seq<Reply>): State
    decreases |arrived|
  {
    if arrived == [] || Over(s) then s else OnReplies(b, OnReply(b, s, arrived[0]), arrived[1..])
  }

  /** redisProcessCallbacks: the replies the reader has, then either nothing more for now or a protocol error. */
  function OnRead(b: Behaviour, s: State, arrived: seq<Reply>, broken: bool): State {
    var t := OnReplies(b, s, arrived);
    if Over(t) then t
    else if broken then Drop(b, t)
    else if t.disconnecting && t.obuf == 0 && t.queue == [] then Teardown(b, t)
    else t
  }

  function OnEvent(b: Behaviour, s: State, e: Event): State {
    if Over(s) then s else
      match e
      case UserCommand(fn, len) => Accept(s, fn, len)
      case UserDisconnect =>
        var t := s.(disconnecting := true);
        if t.queue == [] then Teardown(b, t) else t
      case UserFree => Teardown(b, s.(freeing := true))
      case Readable(arrived, broken) => if arrived.None? then Drop(b, s) else OnRead(b, s, arrived.value, broken)
      case Writable(n) => if n.None? then Drop(b, s) else s.(obuf := if n.value <= s.obuf then s.obuf - n.value else 0)
      case ConnectFails => Drop(b, s)
  }

  /** The state after a whole run; a context that is over takes no part in events any more. */
  function After(b: Behaviour, s: State, es: seq<Event>): State {
    if es == [] then s else OnEvent(b, After(b, s, es[..|es| - 1]), es[|es| - 1])
  }

  lemma AfterNone(b: Behaviour, s: State, es: seq<Event>)
    ensures After(b, s, es[..0]) == s
  {
  }

  lemma AfterNext(b: Behaviour, s: State, es: seq<Event>, k: nat)
    requires k < |es|
    ensures After(b, s, es[..k + 1]) == OnEvent(b, After(b, s, es[..k]), es[k])
  {
    hide OnEvent;
    assert es[..k + 1][..k] == es[..k];
  }

  lemma {:induction false} OverStays(b: Behaviour, s: State, es: seq<Event>, k: nat)
    requires k <= |es| && Over(After(b, s, es[..k]))
    ensures After(b, s, es) == After(b, s, es[..k])
    decreases |es|
  {
    hide OnEvent;
    if k < |es| {
      var init := es[..|es| - 1];
      assert init[..k] == es[..k];
      OverStays(b, s, init, k);
      StepOver(b, After(b, s, init), es[|es| - 1]);
    } else {
      assert es[..k] == es;
    }
  }

  lemma StepOver(b: Behaviour, s: State, e: Event)
    requires Over(s)
    ensures OnEvent(b, s, e) == s
  {
  }

  // ----- Every callback once, in order, with its reply

  /** The callbacks among these that have a function, which is called. */
  ghost function Calls(log: seq<Served>): seq<Served> {
    if log == [] then [] else
      var last := log[|log| - 1];
      Calls(log[..|log| - 1]) + if last.cb.fn then [last] else []
  }

  /** Of a log in order, exactly the callbacks with a function have been called, each once, in order, with what they were handed. */
  lemma {:induction false} CalledOnceInOrder(log: seq<Served>)
    requires forall k :: 0 <= k < |log| ==> log[k].cb.id == k
    ensures forall c :: c in Calls(log) <==> c in log && c.cb.fn
    ensures forall i, j :: 0 <= i < j < |Calls(log)| ==> Calls(log)[i].cb.id < Calls(log)[j].cb.id
    decreases |log|
  {
    if log != [] {
      var init := log[..|log| - 1];
      CalledOnceInOrder(init);
      forall i | 0 <= i < |Calls(init)|
        ensures Calls(init)[i].cb.id < |init|
      {
        assert Calls(init)[i] in init;
      }
      assert log == init + [log[|log| - 1]];
    }
  }

  /** What the k-th accepted command's callback is handed: the k-th reply, or NULL when there is none. */
  function Due(s: State, k: nat): Served
    requires k < |s.accepted|
  {
    Served(s.accepted[k], if k < |s.received| then Some(s.received[k]) else None)
  }

  /** The accepted commands are those served, each with what it is due, and then those in the queue. */
  ghost predicate Ordered(s: State) {
    && |s.received| <= |s.served| <= |s.accepted| && s.queue == s.accepted[|s.served|..]
    && (forall k :: 0 <= k < |s.accepted| ==> s.accepted[k].id == k)
    && (forall k :: 0 <= k < |s.served| ==> s.served[k] == Due(s, k))
    && s.ran == Calls(s.served)
  }

  /** Between events: every reply received has been given to its callback, and nothing is under way. */
  ghost predicate Live(s: State) { Ordered(s) && !Over(s) && !s.freeing && !s.err && |s.served| == |s.received| }

  /** After teardown every accepted command has been served; an assertion stops the process with all replies handed out. */
  ghost predicate Whole(s: State) {
    if s.freed then Ordered(s) && s.queue == []
    else if s.aborted then Ordered(s) && |s.served| == |s.received|
    else Live(s)
  }

  /** From s to t commands are only added, and none once disconnecting. */
  predicate Grows(s: State, t: State) {
    s.accepted <= t.accepted && (s.disconnecting ==> t.disconnecting && t.accepted == s.accepted)
  }

  /** The commands accepted from s to t are at the end of the queue. */
  ghost predicate Queued(s: State, t: State) {
    && s.accepted <= t.accepted && t.queue == s.queue + t.accepted[|s.accepted|..]
    && (forall k :: |s.accepted| <= k < |t.accepted| ==> t.accepted[k].id == k)
  }

  lemma QueuedOn(s: State, u: State, t: State)
    requires Queued(s, u) && Queued(u, t)
    ensures Queued(s, t)
  {
    var more, last := u.accepted[|s.accepted|..], t.accepted[|u.accepted|..];
    assert t.accepted[|s.accepted|..] == more + last;
    assert s.queue + more + last == s.queue + (more + last);
    assert forall k :: |s.accepted| <= k < |u.accepted| ==> t.accepted[k] == u.accepted[k];
  }

  lemma PerformQueues(s: State, call: Call)
    ensures Queued(s, Perform(s, call))
  {
    assert s.accepted[|s.accepted|..] == [] && s.queue + [] == s.queue;
  }

  /** A callback leaves alone what has been served, only adds commands to the end, and closes exactly when it asks to. */
  ghost predicate CallbackMay(s: State, t: State, calls: seq<Call>) {
    && t.served == s.served && t.received == s.received && t.ran == s.ran
    && t.freed == s.freed && t.aborted == s.aborted && t.err == s.err
    && Grows(s, t) && Queued(s, t)
    && (t.disconnecting <==> s.disconnecting || AskDisconnect in calls)
    && (t.freeing <==> s.freeing || AskFree in calls)
  }

  lemma PerformMay(s: State, call: Call)
    ensures CallbackMay(s, Perform(s, call), [call])
  {
    hide Queued;
    PerformQueues(s, call);
  }

  lemma MayOn(s: State, u: State, t: State, first: seq<Call>, rest: seq<Call>)
    requires CallbackMay(s, u, first) && CallbackMay(u, t, rest)
    ensures CallbackMay(s, t, first + rest)
  {
    hide Queued;
    QueuedOn(s, u, t);
  }

  lemma {:induction false} PerformAllMay(s: State, calls: seq<Call>)
    ensures CallbackMay(s, PerformAll(s, calls), calls)
    decreases |calls|
  {
    if calls != [] {
      hide CallbackMay, Perform;
      var u := Perform(s, calls[0]);
      PerformMay(s, calls[0]);
      PerformAllMay(u, calls[1..]);
      MayOn(s, u, PerformAll(u, calls[1..]), [calls[0]], calls[1..]);
      assert calls == [calls[0]] + calls[1..];
    } else {
      QueuedNone(s);
    }
  }

  lemma QueuedNone(s: State)
    ensures Queued(s, s)
  {
    assert s.accepted[|s.accepted|..] == [] && s.queue + [] == s.queue;
  }

  /** Some callback that ran in these turns asked to disconnect. */
  predicate Asked(b: Behaviour, from: nat, to: nat) { exists t :: from <= t < to && AskDisconnect in b(t) }

  lemma AskedOn(b: Behaviour, i: nat, j: nat, k: nat)
    requires i <= j <= k
    ensures Asked(b, i, k) <==> Asked(b, i, j) || Asked(b, j, k)
  {
  }

  lemma CallsOn(log: seq<Served>, x: Served)
    ensures Calls(log + [x]) == Calls(log) + if x.cb.fn then [x] else []
  {
    assert (log + [x])[..|log|] == log;
  }

  /** Handing the oldest callback its reply or NULL keeps the order, but for its call. */
  lemma TakeNextKeeps(s: State, reply: Option<Reply>)
    requires Ordered(s) && s.queue != [] && (reply.Some? ==> |s.served| == |s.received|)
    ensures var u := TakeNext(s, reply);
      Ordered(u.(ran := if s.queue[0].fn then u.ran + [Served(s.queue[0], reply)] else u.ran))
  {
    hide Calls;
    CallsOn(s.served, Served(s.queue[0], reply));
    assert s.accepted[|s.served|..][1..] == s.accepted[|s.served| + 1..];
    assert s.ran == s.ran + [];
  }

  lemma CallbackKeeps(s: State, t: State, calls: seq<Call>)
    requires Ordered(s) && CallbackMay(s, t, calls)
    ensures Ordered(t)
  {
    hide Calls;
    assert t.accepted[|s.served|..] == s.queue + t.accepted[|s.accepted|..];
  }

  /** Serving one callback keeps the order, and closes the context exactly when the callback asks for it. */
  lemma ServeKeeps(b: Behaviour, s: State, reply: Option<Reply>)
    requires Ordered(s) && s.queue != [] && (reply.Some? ==> |s.served| == |s.received|)
    ensures var t := Serve(b, s, reply);
      && Ordered(t) && Grows(s, t) && |t.served| == |s.served| + 1 && t.turn == s.turn + (if s.queue[0].fn then 1 else 0)
      && t.received == s.received + (if reply.Some? then [reply.value] else [])
      && t.freed == s.freed && t.aborted == s.aborted && t.err == s.err
      && (t.disconnecting <==> s.disconnecting || Asked(b, s.turn, t.turn))
      && (t.freeing ==> s.freeing || s.queue[0].fn)
  {
    hide Ordered, Calls, Queued, PerformAll;
    var u, cb := TakeNext(s, reply), s.queue[0];
    TakeNextKeeps(s, reply);
    if cb.fn {
      assert Asked(b, s.turn, s.turn + 1) <==> AskDisconnect in b(s.turn);
      var v := u.(ran := u.ran + [Served(cb, reply)], turn := u.turn + 1);
      TurnKeeps(u.(ran := u.ran + [Served(cb, reply)]), v.turn);
      PerformAllMay(v, b(s.turn));
      CallbackKeeps(v, PerformAll(v, b(s.turn)), b(s.turn));
    }
  }

  lemma TurnKeeps(s: State, n: nat)
    requires Ordered(s)
    ensures Ordered(s.(turn := n))
  {
  }

  lemma FlagsKeep(s: State, t: State)
    requires Ordered(s) && t == s.(err := t.err, disconnecting := t.disconnecting, freeing := t.freeing, freed := t.freed, aborted := t.aborted, obuf := t.obuf)
    ensures Ordered(t)
  {
  }

  /** Teardown serves every accepted command, with the replies there were and NULL for the rest. */
  lemma {:induction false} TeardownKeeps(b: Behaviour, s: State)
    requires Ordered(s) && Closing(s) && !s.freed
    ensures var t := Teardown(b, s);
      && Ordered(t) && t.freed && t.queue == [] && Grows(s, t) && s.turn <= t.turn
      && t.accepted == s.accepted && t.received == s.received && t.aborted == s.aborted
    decreases |s.queue|
  {
    hide Ordered, Calls, Serve;
    if s.queue != [] {
      ServeKeeps(b, s, None);
      TeardownKeeps(b, Serve(b, s, None));
    } else {
      FlagsKeep(s, s.(freed := true));
    }
  }

  /** From s to t the replies `arrived` came in: a prefix of them was matched, all of them unless it is over. */
  ghost predicate Took(b: Behaviour, s: State, t: State, arrived: seq<Reply>) {
    && Whole(t) && Grows(s, t) && s.turn <= t.turn
    && s.received <= t.received <= s.received + arrived
    && (!Over(t) ==> t.received == s.received + arrived)
    && (!Over(t) ==> (t.disconnecting <==> s.disconnecting || Asked(b, s.turn, t.turn)))
  }

  lemma DropTakes(b: Behaviour, s: State, arrived: seq<Reply>)
    requires Live(s)
    ensures Took(b, s, Drop(b, s), arrived) && Drop(b, s).received == s.received && !Drop(b, s).aborted
  {
    hide Ordered, Calls;
    var t := s.(err := true, disconnecting := true);
    FlagsKeep(s, t);
    TeardownKeeps(b, t);
  }

  lemma OnReplyTakes(b: Behaviour, s: State, reply: Reply)
    requires Live(s)
    ensures Took(b, s, OnReply(b, s, reply), [reply])
    ensures s.queue != [] ==> OnReply(b, s, reply).received == s.received + [reply] && !OnReply(b, s, reply).aborted
    ensures s.queue == [] ==> if reply.Error? then OnReply(b, s, reply).freed else OnReply(b, s, reply).aborted
  {
    hide Ordered, Calls, Serve;
    if s.queue == [] {
      DropTakes(b, s, [reply]);
      FlagsKeep(s, s.(aborted := true));
    } else {
      ServeKeeps(b, s, Some(reply));
      var t := Serve(b, s, Some(reply));
      if s.queue[0].fn && t.freeing { TeardownKeeps(b, t); }
    }
  }

  /** One piece after another. */
  lemma TookOn(b: Behaviour, s: State, u: State, t: State, first: seq<Reply>, rest: seq<Reply>)
    requires Took(b, s, u, first) && (if Over(u) then t == u else Took(b, u, t, rest))
    ensures Took(b, s, t, first + rest)
  {
    hide Whole, Asked;
    if Over(u) {
      assert s.received + first <= s.received + (first + rest);
    } else {
      AskedOn(b, s.turn, u.turn, t.turn);
      assert s.received + first + rest == s.received + (first + rest);
    }
  }

  lemma {:induction false} OnRepliesTakes(b: Behaviour, s: State, arrived: seq<Reply>)
    requires Live(s)
    ensures Took(b, s, OnReplies(b, s, arrived), arrived)
    decreases |arrived|
  {
    hide Ordered, OnReply;
    if arrived != [] {
      OnReplyTakes(b, s, arrived[0]);
      var u := OnReply(b, s, arrived[0]);
      assert arrived == [arrived[0]] + arrived[1..];
      if !Over(u) { OnRepliesTakes(b, u, arrived[1..]); }
      TookOn(b, s, u, OnReplies(b, u, arrived[1..]), [arrived[0]], arrived[1..]);
    }
  }

  lemma OnReadTakes(b: Behaviour, s: State, arrived: seq<Reply>, broken: bool)
    requires Live(s)
    ensures Took(b, s, OnRead(b, s, arrived, broken), arrived)
  {
    hide Ordered, OnReplies, Teardown;
    OnRepliesTakes(b, s, arrived);
    var t := OnReplies(b, s, arrived);
    if !Over(t) {
      DropTakes(b, t, []);
      if t.disconnecting { TeardownKeeps(b, t); }
      TookOn(b, s, t, OnRead(b, s, arrived, broken), arrived, []);
      assert arrived + [] == arrived;
    }
  }

  // ----- Over any run

  function ArrivalsOf(e: Event): seq<Reply> { if e.Readable? && e.arrived.Some? then e.arrived.value else [] }

  /** The replies that arrived, in order. */
  function Arrivals(es: seq<Event>): seq<Reply> {
    if es == [] then [] else Arrivals(es[..|es| - 1]) + ArrivalsOf(es[|es| - 1])
  }

  /** What one event does to a context that is not over. */
  ghost predicate Stepped(b: Behaviour, s: State, t: State, e: Event) {
    && Whole(t) && Grows(s, t) && s.turn <= t.turn
    && s.received <= t.received <= s.received + ArrivalsOf(e)
    && (!Over(t) ==> t.received == s.received + ArrivalsOf(e))
    && (!Over(t) ==> (t.disconnecting <==> s.disconnecting || e.UserDisconnect? || Asked(b, s.turn, t.turn)))
  }

  lemma StepKeeps(b: Behaviour, s: State, e: Event)
    requires Live(s)
    ensures Stepped(b, s, OnEvent(b, s, e), e)
  {
    hide Ordered, OnRead, Teardown;
    match e
    case UserCommand(fn, len) => AcceptKeeps(s, fn, len);
    case UserDisconnect =>
      var t := s.(disconnecting := true);
      FlagsKeep(s, t);
      TeardownKeeps(b, t);
    case UserFree =>
      var t := s.(freeing := true);
      FlagsKeep(s, t);
      TeardownKeeps(b, t);
    case Readable(arrived, broken) =>
      if arrived.None? { DropTakes(b, s, []); } else { OnReadTakes(b, s, arrived.value, broken); }
    case Writable(n) =>
      DropTakes(b, s, []);
      FlagsKeep(s, s.(obuf := OnEvent(b, s, e).obuf));
    case ConnectFails => DropTakes(b, s, []);
  }

  lemma AcceptKeeps(s: State, fn: bool, len: nat)
    requires Live(s)
    ensures Live(Accept(s, fn, len))
  {
    var t := Accept(s, fn, len);
    assert t.accepted[|s.served|..] == s.queue + t.accepted[|s.accepted|..];
  }

  /** What a whole run does, from a context that is live at its start. */
  ghost predicate Ran(b: Behaviour, s: State, t: State, es: seq<Event>) {
    && Whole(t) && Grows(s, t) && s.turn <= t.turn
    && s.received <= t.received <= s.received + Arrivals(es)
    && (!Over(t) ==> t.received == s.received + Arrivals(es))
    && (!Over(t) ==> (t.disconnecting <==> s.disconnecting || UserDisconnect in es || Asked(b, s.turn, t.turn)))
  }

  lemma RanOn(b: Behaviour, s: State, u: State, t: State, es: seq<Event>)
    requires es != [] && Ran(b, s, u, es[..|es| - 1])
    requires if Over(u) then t == u else Stepped(b, u, t, es[|es| - 1])
    ensures Ran(b, s, t, es)
  {
    hide Whole, Asked;
    var init, e := es[..|es| - 1], es[|es| - 1];
    assert es == init + [e];
    if Over(u) {
      assert s.received + Arrivals(init) <= s.received + Arrivals(es);
    } else {
      AskedOn(b, s.turn, u.turn, t.turn);
      assert s.received + Arrivals(init) + ArrivalsOf(e) == s.received + Arrivals(es);
    }
  }

  lemma {:induction false} RunKeeps(b: Behaviour, s: State, es: seq<Event>)
    requires Live(s)
    ensures Ran(b, s, After(b, s, es), es)
    decreases |es|
  {
    hide Ordered, OnEvent;
    if es != [] {
      var init, e := es[..|es| - 1], es[|es| - 1];
      RunKeeps(b, s, init);
      var u := After(b, s, init);
      if Over(u) { StepOver(b, u, e); } else { StepKeeps(b, u, e); }
      RanOn(b, s, u, OnEvent(b, u, e), es);
    }
  }

  /** A run that is not over has left the context live. */
  lemma RunOver(b: Behaviour, s: State, es: seq<Event>)
    requires Live(s) && !Over(After(b, s, es))
    ensures Live(After(b, s, es))
  {
    hide After, Ordered;
    RunKeeps(b, s, es);
  }

  lemma StartIsLive()
    ensures Live(START)
  {
  }

  /**
   In any run, whatever the callbacks do: the k-th accepted command's callback is handed the k-th reply that arrived,
   or NULL at teardown; while the context is up exactly the replies that arrived have been handed out, after teardown
   every accepted command has been served, and exactly the callbacks with a function have been called.
   */
  lemma ServedInOrder(b: Behaviour, es: seq<Event>)
    ensures var t, all := After(b, START, es), Arrivals(es);
      && t.received <= all && |t.served| <= |t.accepted|
      && (forall k :: 0 <= k < |t.served| ==>
            t.served[k] == Served(t.accepted[k], if k < |t.received| then Some(all[k]) else None))
      && (if t.freed then |t.served| == |t.accepted| else |t.served| == |t.received|)
      && (!Over(t) ==> t.received == all)
      && t.ran == Calls(t.served)
  {
    hide After, Calls;
    StartIsLive();
    RunKeeps(b, START, es);
    assert [] + Arrivals(es) == Arrivals(es);
  }

  /**
   A command the user issues is accepted exactly when no disconnect has been asked for, by the user or by a callback
   that has run; it then goes last, and stays where it is.  No other event but a read accepts anything.
   */
  lemma AcceptedExactly(b: Behaviour, es: seq<Event>, k: nat)
    requires k < |es| && !Over(After(b, START, es[..k])) && !es[k].Readable?
    ensures var t := After(b, START, es[..k]);
      var closed := UserDisconnect in es[..k] || Asked(b, 0, t.turn);
      var own := if es[k].UserCommand? && !closed then [Callback(|t.accepted|, es[k].fn)] else [];
      && After(b, START, es[..k + 1]).accepted == t.accepted + own
      && t.accepted + own <= After(b, START, es).accepted
  {
    hide Ordered, Asked;
    StartIsLive();
    var t := After(b, START, es[..k]);
    RunKeeps(b, START, es[..k]);
    assert es[..k + 1][..k] == es[..k];
    StepAccepts(b, t, es[k]);
    GrowsOn(b, es, k + 1);
  }

  lemma StepAccepts(b: Behaviour, s: State, e: Event)
    requires Live(s) && !e.Readable?
    ensures OnEvent(b, s, e).accepted ==
      s.accepted + if e.UserCommand? && !s.disconnecting then [Callback(|s.accepted|, e.fn)] else []
  {
    hide Ordered, Teardown;
    if e.UserDisconnect? || e.UserFree? || e.Writable? || e.ConnectFails? {
      var x, y, z := s.(disconnecting := true), s.(freeing := true), s.(err := true, disconnecting := true);
      FlagsKeep(s, x);
      FlagsKeep(s, y);
      FlagsKeep(s, z);
      TeardownKeeps(b, x);
      TeardownKeeps(b, y);
      TeardownKeeps(b, z);
    }
  }

  lemma {:induction false} GrowsOn(b: Behaviour, es: seq<Event>, k: nat)
    requires k <= |es|
    ensures Grows(After(b, START, es[..k]), After(b, START, es))
    decreases |es|
  {
    hide Ordered, OnEvent, Asked;
    if k < |es| {
      var init, e := es[..|es| - 1], es[|es| - 1];
      assert init[..k] == es[..k];
      GrowsOn(b, init, k);
      StartIsLive();
      RunKeeps(b, START, init);
      var u := After(b, START, init);
      if Over(u) { StepOver(b, u, e); } else { StepKeeps(b, u, e); }
    } else {
      assert es[..k] == es;
    }
  }

  /** Once disconnecting, nothing is accepted any more, not even from a callback. */
  lemma NothingAcceptedLater(b: Behaviour, es: seq<Event>, k: nat)
    requires k <= |es| && After(b, START, es[..k]).disconnecting
    ensures After(b, START, es).accepted == After(b, START, es[..k]).accepted && After(b, START, es).disconnecting
  {
    hide After;
    GrowsOn(b, es, k);
  }

  // ----- What callbacks get accepted

  /** The commands a callback issues before it first asks to disconnect or to free. */
  function IssuedFirst(calls: seq<Call>): seq<bool> {
    if calls == [] || !calls[0].Issue? then [] else [calls[0].fn] + IssuedFirst(calls[1..])
  }

  predicate Closes(calls: seq<Call>) { AskDisconnect in calls || AskFree in calls }

  /** The commands issued by the callbacks of these turns, up to the first one that closes the context. */
  function IssuedIn(b: Behaviour, from: nat, to: nat, closed: bool): seq<bool>
    decreases if from < to then to - from else 0
  {
    if from >= to || closed then [] else IssuedFirst(b(from)) + IssuedIn(b, from + 1, to, Closes(b(from)))
  }

  /** Callbacks with these functions, numbered from n. */
  function Numbered(fns: seq<bool>, n: nat): seq<Callback> {
    seq(|fns|, i requires 0 <= i < |fns| => Callback(n + i, fns[i]))
  }

  /** From s to t exactly these were accepted, in order. */
  predicate Accepted(s: State, t: State, fns: seq<bool>) { t.accepted == s.accepted + Numbered(fns, |s.accepted|) }

  lemma AcceptedOn(s: State, u: State, t: State, first: seq<bool>, rest: seq<bool>)
    requires Accepted(s, u, first) && Accepted(u, t, rest)
    ensures Accepted(s, t, first + rest)
  {
    var n := |s.accepted|;
    assert Numbered(first + rest, n) == Numbered(first, n) + Numbered(rest, n + |first|);
  }

  lemma AcceptedNone(s: State, t: State)
    requires t.accepted == s.accepted
    ensures Accepted(s, t, [])
  {
  }

  /** Of the calls of one callback exactly the commands before the first disconnect or free are accepted, in order. */
  lemma {:induction false} CallbackAccepts(s: State, calls: seq<Call>)
    ensures Accepted(s, PerformAll(s, calls), if Closing(s) then [] else IssuedFirst(calls))
    decreases |calls|
  {
    hide Accepted;
    var t := PerformAll(s, calls);
    if Closing(s) || calls == [] {
      AcceptedNone(s, t);
    } else {
      var u := Perform(s, calls[0]);
      CallbackAccepts(u, calls[1..]);
      if calls[0].Issue? {
        OneAccepted(s, calls[0].fn, calls[0].len);
        AcceptedOn(s, u, t, [calls[0].fn], IssuedFirst(calls[1..]));
      } else {
        AcceptedNone(s, t);
      }
    }
  }

  lemma OneAccepted(s: State, fn: bool, len: nat)
    requires !Closing(s)
    ensures Accepted(s, Accept(s, fn, len), [fn])
  {
  }

  lemma {:induction false} IssuedSplits(b: Behaviour, i: nat, j: nat, k: nat, closed: bool)
    requires i <= j <= k
    ensures IssuedIn(b, i, k, closed) == IssuedIn(b, i, j, closed) + IssuedIn(b, j, k, closed || ClosedIn(b, i, j))
    decreases j - i
  {
    if i < j && !closed {
      IssuedSplits(b, i + 1, j, k, Closes(b(i)));
      assert ClosedIn(b, i, j) <==> Closes(b(i)) || ClosedIn(b, i + 1, j);
    }
  }

  /** Some callback of these turns asked to disconnect or to free. */
  predicate ClosedIn(b: Behaviour, from: nat, to: nat) { exists t :: from <= t < to && Closes(b(t)) }

  /** What replies, one or more, make callbacks get accepted. */
  ghost predicate Issues(b: Behaviour, s: State, t: State) {
    && s.turn <= t.turn && Accepted(s, t, IssuedIn(b, s.turn, t.turn, Closing(s)))
    && (!Over(t) ==> (Closing(t) <==> Closing(s) || ClosedIn(b, s.turn, t.turn)))
  }

  lemma ServeIssues(b: Behaviour, s: State, reply: Option<Reply>)
    requires s.queue != []
    ensures Issues(b, s, Serve(b, s, reply))
    ensures var t := Serve(b, s, reply); Closing(t) <==> Closing(s) || ClosedIn(b, s.turn, t.turn)
  {
    hide Accepted;
    var u, cb := TakeNext(s, reply), s.queue[0];
    if cb.fn {
      var v := u.(ran := u.ran + [Served(cb, reply)], turn := u.turn + 1);
      PerformAllMay(v, b(s.turn));
      CallbackAccepts(v, b(s.turn));
      SameStart(s, v, PerformAll(v, b(s.turn)), if Closing(s) then [] else IssuedFirst(b(s.turn)));
      assert IssuedIn(b, s.turn, s.turn + 1, Closing(s)) == if Closing(s) then [] else IssuedFirst(b(s.turn));
      assert ClosedIn(b, s.turn, s.turn + 1) <==> Closes(b(s.turn));
    } else {
      AcceptedNone(s, u);
    }
  }

  lemma SameStart(s: State, v: State, t: State, fns: seq<bool>)
    requires v.accepted == s.accepted && Accepted(v, t, fns)
    ensures Accepted(s, t, fns)
  {
  }

  /** Once closing, whatever runs, nothing is accepted. */
  lemma {:induction false} TeardownAccepts(b: Behaviour, s: State)
    requires Closing(s)
    ensures Teardown(b, s).accepted == s.accepted && s.turn <= Teardown(b, s).turn && Teardown(b, s).freed
    decreases |s.queue|
  {
    if s.queue != [] {
      hide Accepted;
      ServeIssues(b, s, None);
      TeardownAccepts(b, Serve(b, s, None));
    }
  }

  lemma OnReplyIssues(b: Behaviour, s: State, reply: Reply)
    requires !Over(s)
    ensures Issues(b, s, OnReply(b, s, reply))
  {
    hide Accepted, Serve, Teardown;
    if s.queue == [] {
      NoneWaits(b, s, reply);
      AcceptedNone(s, OnReply(b, s, reply));
    } else {
      ServeIssues(b, s, Some(reply));
      var t := Serve(b, s, Some(reply));
      if s.queue[0].fn && t.freeing {
        var w := Teardown(b, t);
        TeardownAccepts(b, t);
        AcceptedNone(t, w);
        IssuedSplits(b, s.turn, t.turn, w.turn, Closing(s));
        AcceptedOn(s, t, w, IssuedIn(b, s.turn, t.turn, Closing(s)), []);
      }
    }
  }

  lemma NoneWaits(b: Behaviour, s: State, reply: Reply)
    requires s.queue == []
    ensures var t := OnReply(b, s, reply); t.accepted == s.accepted && t.turn == s.turn && Over(t)
  {
  }

  lemma IssuesOn(b: Behaviour, s: State, u: State, t: State)
    requires Issues(b, s, u) && !Over(u) && Issues(b, u, t)
    ensures Issues(b, s, t)
  {
    hide Accepted, Closes;
    IssuedSplits(b, s.turn, u.turn, t.turn, Closing(s));
    AcceptedOn(s, u, t, IssuedIn(b, s.turn, u.turn, Closing(s)), IssuedIn(b, u.turn, t.turn, Closing(u)));
  }

  lemma {:induction false} OnRepliesIssues(b: Behaviour, s: State, arrived: seq<Reply>)
    requires !Over(s)
    ensures Issues(b, s, OnReplies(b, s, arrived))
    decreases |arrived|
  {
    hide Accepted, OnReply;
    if arrived == [] {
      AcceptedNone(s, s);
    } else {
      var u := OnReply(b, s, arrived[0]);
      OnReplyIssues(b, s, arrived[0]);
      if !Over(u) {
        OnRepliesIssues(b, u, arrived[1..]);
        IssuesOn(b, s, u, OnReplies(b, u, arrived[1..]));
      }
    }
  }

  /**
   What a read accepts, at any point of any run: exactly the commands issued by the callbacks of its replies, turn by
   turn, up to the first request to disconnect or to free by anybody; nothing when the read fails, and nothing from the
   callbacks that a teardown runs.
   */
  lemma AcceptedByCallbacks(b: Behaviour, es: seq<Event>, k: nat)
    requires k < |es| && !Over(After(b, START, es[..k])) && es[k].Readable?
    ensures var t := After(b, START, es[..k]);
      var closed := UserDisconnect in es[..k] || Asked(b, 0, t.turn);
      var last := OnReplies(b, t, ArrivalsOf(es[k])).turn;
      && t.turn <= last
      && Accepted(t, After(b, START, es[..k + 1]), IssuedIn(b, t.turn, last, closed))
  {
    hide Ordered, Asked, Accepted, OnReplies, After;
    StartIsLive();
    RunKeeps(b, START, es[..k]);
    AfterNext(b, START, es, k);
    ReadAccepts(b, After(b, START, es[..k]), es[k]);
  }

  lemma ReadAccepts(b: Behaviour, s: State, e: Event)
    requires Live(s) && e.Readable?
    ensures var last := OnReplies(b, s, ArrivalsOf(e)).turn;
      s.turn <= last && Accepted(s, OnEvent(b, s, e), IssuedIn(b, s.turn, last, s.disconnecting))
  {
    hide Ordered, Teardown, OnReplies;
    OnRepliesIssues(b, s, ArrivalsOf(e));
    if e.arrived.None? {
      TeardownAccepts(b, s.(err := true, disconnecting := true));
      NoReplies(b, s);
    } else {
      var t := OnReplies(b, s, e.arrived.value);
      TeardownAccepts(b, t.(err := true, disconnecting := true));
      if t.disconnecting { TeardownAccepts(b, t); }
    }
  }

  lemma NoReplies(b: Behaviour, s: State)
    ensures OnReplies(b, s, []) == s
  {
  }

  // ----- When it ends

  /** A reply ends it exactly when nobody waits for one, or its callback asks to free. */
  lemma ReplyEndsExactly(b: Behaviour, s: State, reply: Reply)
    requires Live(s)
    ensures Over(OnReply(b, s, reply)) <==> s.queue == [] || (s.queue[0].fn && AskFree in b(s.turn))
    ensures OnReply(b, s, reply).aborted <==> s.queue == [] && !reply.Error?
  {
    hide Ordered, Calls, Teardown;
    OnReplyTakes(b, s, reply);
    DropTakes(b, s, []);
    if s.queue != [] {
      var u, cb := TakeNext(s, Some(reply)), s.queue[0];
      var v := u.(ran := u.ran + [Served(cb, Some(reply))], turn := u.turn + 1);
      PerformAllMay(v, b(s.turn));
      ServeKeeps(b, s, Some(reply));
      if cb.fn && Serve(b, s, Some(reply)).freeing { TeardownKeeps(b, Serve(b, s, Some(reply))); }
    }
  }

  /** Any other event ends it exactly on a failure, a free, or a disconnect with nothing left to wait for. */
  lemma EventEndsExactly(b: Behaviour, s: State, e: Event)
    requires Live(s) && ArrivalsOf(e) == []
    ensures Over(OnEvent(b, s, e)) <==>
      match e
      case UserCommand(_, _) => false
      case UserDisconnect => s.queue == []
      case UserFree => true
      case Readable(arrived, broken) =>
        arrived.None? || broken || (s.disconnecting && s.obuf == 0 && s.queue == [])
      case Writable(n) => n.None?
      case ConnectFails => true
    ensures !OnEvent(b, s, e).aborted
  {
    hide Ordered, Teardown;
    var x, y, z := s.(disconnecting := true), s.(freeing := true), s.(err := true, disconnecting := true);
    FlagsKeep(s, x);
    FlagsKeep(s, y);
    FlagsKeep(s, z);
    TeardownKeeps(b, x);
    TeardownKeeps(b, y);
    TeardownKeeps(b, z);
    if s.disconnecting { TeardownKeeps(b, s); }
  }
}
