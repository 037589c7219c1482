/**
 The asynchronous client as an object: a linked queue of callbacks and connection flags, updated in place by calls that
 callbacks may make again.  Every method is proved to do what AsyncMachine says, where the laws over whole runs are.
 */
module AsyncContext {
  import opened Optional
  import opened RespParser
  import opened AsyncMachine

  // ----- The linked list

  class Node {
    const cb: Callback
    var next: Node?

    constructor (cb: Callback)
      ensures this.cb == cb && next == null
    {
      this.cb, next := cb, null;
    }
  }

  ghost function At(ns: seq<Node>, i: nat): Node? { if i < |ns| then ns[i] else null }

  /** redisCallbackList. */
  class CallbackList {
    var head: Node?
    var tail: Node?
    ghost var nodes: seq<Node>

    ghost predicate Valid()
      reads this, nodes
    {
      && head == At(nodes, 0) && tail == (if nodes == [] then null else nodes[|nodes| - 1])
      && (forall i :: 0 <= i < |nodes| ==> nodes[i].next == At(nodes, i + 1))
      && (forall i, j :: 0 <= i < j < |nodes| ==> nodes[i] != nodes[j])
    }

    ghost function Contents(): (s: seq<Callback>)
      reads this
      ensures |s| == |nodes|
    {
      seq(|nodes|, i requires 0 <= i < |nodes| reads this => nodes[i].cb)
    }

    constructor ()
      ensures Valid() && Contents() == [] && nodes == []
    {
      head, tail, nodes := null, null, [];
    }

    /** __redisPushCallback: at the end. */
    method Push(source: Callback)
      requires Valid()
      modifies this, nodes
      ensures Valid() && Contents() == old(Contents()) + [source] && fresh(set n | n in nodes && n !in old(nodes))
    {
      var cb := new Node(source);
      if head == null { head := cb; }
      if tail != null { tail.next := cb; }
      tail := cb;
      nodes := nodes + [cb];
    }

    /** __redisShiftCallback: the first one, or none exactly when there is none. */
    method Shift() returns (target: Option<Callback>)
      requires Valid()
      modifies this
      ensures Valid() && Set(nodes) <= old(Set(nodes))
      ensures if old(Contents()) == [] then target.None? && Contents() == []
              else target == Some(old(Contents())[0]) && Contents() == old(Contents())[1..]
    {
      var cb := head;
      if cb == null { return None; }
      head := cb.next;
      if cb == tail { tail := null; }
      nodes := nodes[1..];
      return Some(cb.cb);
    }
  }

  ghost function Set(ns: seq<Node>): set<Node> { set n | n in ns }

  // ----- The context

  class Context {
    var disconnecting: bool
    var freeing: bool
    var inCallback: bool
    var err: bool
    var obuf: nat
    const replies: CallbackList
    var freed: bool
    var aborted: bool

    /** Commands accepted so far. */
    var issued: nat

    const behaviour: Behaviour
    var turn: nat

    ghost var accepted: seq<Callback>
    ghost var received: seq<Reply>
    ghost var served: seq<Served>
    ghost var ran: seq<Served>

    ghost function Footprint(): set<object>
      reads this, replies
    {
      {this, replies} + Set(replies.nodes)
    }

    ghost predicate Valid()
      reads this, replies, replies.nodes
    {
      replies.Valid() && issued == |accepted|
    }

    ghost function V(): State
      reads this, replies
    {
      State(disconnecting, freeing, err, obuf, replies.Contents(), freed, aborted, turn, accepted, received, served, ran)
    }

    constructor (behaviour: Behaviour)
      ensures Valid() && V() == START && !inCallback && this.behaviour == behaviour
      ensures fresh(replies) && replies.nodes == []
    {
      this.behaviour := behaviour;
      disconnecting, freeing, inCallback, err, freed, aborted := false, false, false, false, false, false;
      obuf, issued, turn := 0, 0, 0;
      accepted, received, served, ran := [], [], [], [];
      replies := new CallbackList();
    }

    /** __redisAsyncCommand for an ordinary command: accepted exactly when the context is not about to be closed. */
    method Command(fn: bool, len: nat) returns (ok: bool)
      requires Valid()
      modifies `obuf, `issued, `accepted, replies, replies.nodes
      ensures Valid() && fresh(Set(replies.nodes) - old(Set(replies.nodes)))
      ensures V() == Accept(old(V()), fn, len) && ok == !old(Closing(V()))
    {
      if disconnecting || freeing { return false; }
      var cb := Callback(issued, fn);
      replies.Push(cb);
      accepted := accepted + [cb];
      issued := issued + 1;
      obuf := obuf + len;
      return true;
    }

    /** redisAsyncFree: at once, unless called from a callback. */
    method Free()
      requires Valid()
      modifies Footprint()
      ensures Valid() && fresh(Footprint() - old(Footprint())) && inCallback == old(inCallback)
      ensures var t := old(V()).(freeing := true); V() == if inCallback then t else Teardown(behaviour, t)
      decreases if inCallback then 0 else 5
    {
      hide Teardown;
      freeing := true;
      if !inCallback { AsyncFree(); }
    }

    /** redisAsyncDisconnect: at once when nothing is pending, unless called from a callback. */
    method Disconnect()
      requires Valid()
      modifies Footprint()
      ensures Valid() && fresh(Footprint() - old(Footprint())) && inCallback == old(inCallback)
      ensures var t := old(V()).(disconnecting := true);
        V() == if inCallback || t.queue != [] then t else Teardown(behaviour, t)
      decreases if inCallback then 0 else 5
    {
      hide Teardown;
      disconnecting := true;
      if !inCallback && replies.head == null { AsyncDisconnect(); }
    }

    /** One call made by a callback. */
    method Perform(call: Call)
      requires Valid() && inCallback
      modifies Footprint()
      ensures Valid() && fresh(Footprint() - old(Footprint())) && inCallback && V() == AsyncMachine.Perform(old(V()), call)
      decreases 1
    {
      match call
      case Issue(fn, len) => var ok := Command(fn, len);
      case AskDisconnect => Disconnect();
      case AskFree => Free();
    }

    /** __redisRunCallback. */
    method RunCallback(cb: Callback, reply: Option<Reply>)
      requires Valid() && !inCallback
      modifies Footprint()
      ensures Valid() && fresh(Footprint() - old(Footprint())) && !inCallback
      ensures V() == AsyncMachine.RunCallback(behaviour, old(V()), cb, reply)
      decreases 2
    {
      hide PerformAll, AsyncMachine.Perform, CallbackList.Valid, CallbackList.Contents;
      if cb.fn {
        inCallback := true;
        ran := ran + [Served(cb, reply)];
        var todo := behaviour(turn);
        turn := turn + 1;
        ghost var s := V();
        for i := 0 to |todo|
          invariant Valid() && fresh(Footprint() - old(Footprint())) && inCallback
          invariant PerformAll(V(), todo[i..]) == PerformAll(s, todo)
        {
          PerformNext(V(), todo, i);
          Perform(todo[i]);
        }
        PerformNone(V(), todo);
        inCallback := false;
      }
    }

    /** The oldest callback leaves the queue, to be handed this. */
    method TakeNext(reply: Option<Reply>) returns (cb: Option<Callback>)
      requires Valid()
      modifies `served, `received, replies
      ensures Valid() && Set(replies.nodes) <= old(Set(replies.nodes))
      ensures if old(V()).queue == [] then cb.None? && V() == old(V())
              else cb == Some(old(V()).queue[0]) && V() == AsyncMachine.TakeNext(old(V()), reply)
    {
      cb := replies.Shift();
      if cb.Some? {
        served := served + [Served(cb.value, reply)];
        if reply.Some? { received := received + [reply.value]; }
      }
    }

    /** The emptiness test on the head. */
    lemma HeadTells()
      requires Valid()
      ensures replies.head == null <==> V().queue == []
    {
    }

    /** __redisAsyncFree: the callbacks left get NULL, in order; no command is accepted meanwhile. */
    method AsyncFree()
      requires Valid() && !inCallback && Closing(V())
      modifies Footprint()
      ensures Valid() && fresh(Footprint() - old(Footprint())) && !inCallback && V() == Teardown(behaviour, old(V()))
      decreases 3
    {
      while true
        invariant Valid() && fresh(Footprint() - old(Footprint())) && !inCallback && Closing(V())
        invariant Teardown(behaviour, V()) == Teardown(behaviour, old(V()))
        decreases |V().queue|
      {
        var cb := TakeNext(None);
        if cb.None? { break; }
        RunCallback(cb.value, None);
      }
      freed := true;
    }

    /** __redisAsyncDisconnect: the assertion that a clean disconnect has nothing pending holds. */
    method AsyncDisconnect()
      requires Valid() && !inCallback && (!err ==> disconnecting && V().queue == [])
      modifies Footprint()
      ensures Valid() && fresh(Footprint() - old(Footprint())) && !inCallback
      ensures V() == Teardown(behaviour, old(V()).(disconnecting := true))
      decreases 4
    {
      hide Teardown;
      if !err {
        var cb := replies.Shift();
        assert cb.None?;
      } else {
        disconnecting := true;
      }
      AsyncFree();
    }

    /** One turn of the loop of redisProcessCallbacks: a reply has arrived. */
    method ProcessReply(reply: Reply)
      requires Valid() && !inCallback
      modifies Footprint()
      ensures Valid() && fresh(Footprint() - old(Footprint())) && !inCallback
      ensures V() == OnReply(behaviour, old(V()), reply)
    {
      hide Teardown, CallbackList.Valid, CallbackList.Contents;
      var cb := TakeNext(Some(reply));
      if cb.None? {
        if reply.Error? {
          err := true;
          AsyncDisconnect();
        } else {
          aborted := true;
        }
        return;
      }
      if cb.value.fn {
        RunCallback(cb.value, Some(reply));
        if freeing { AsyncFree(); }
      }
    }

    /** redisProcessCallbacks: the replies the reader has, then either nothing more for now or a protocol error. */
    method ProcessCallbacks(arrived: seq<Reply>, broken: bool)
      requires Valid() && !inCallback && Live(V())
      modifies Footprint()
      ensures Valid() && fresh(Footprint() - old(Footprint())) && !inCallback
      ensures V() == OnRead(behaviour, old(V()), arrived, broken)
    {
      hide OnReply, Teardown, Ordered;
      var i := 0;
      while i < |arrived|
        invariant 0 <= i <= |arrived| && Valid() && fresh(Footprint() - old(Footprint())) && !inCallback && Live(V())
        invariant OnReplies(behaviour, V(), arrived[i..]) == OnReplies(behaviour, old(V()), arrived)
      {
        OnReplyTakes(behaviour, V(), arrived[i]);
        ProcessReply(arrived[i]);
        i := i + 1;
        if freed || aborted { return; }
      }
      HeadTells();
      if broken {
        err := true;
        AsyncDisconnect();
      } else if disconnecting && obuf == 0 && replies.head == null {
        AsyncDisconnect();
      }
    }

    /** redisAsyncHandleRead on a connected context. */
    method HandleRead(arrived: Option<seq<Reply>>, broken: bool)
      requires Valid() && !inCallback && Live(V())
      modifies Footprint()
      ensures Valid() && fresh(Footprint() - old(Footprint())) && !inCallback
      ensures V() == if arrived.None? then Drop(behaviour, old(V())) else OnRead(behaviour, old(V()), arrived.value, broken)
    {
      hide OnRead, Teardown, Ordered, CallbackList.Valid, CallbackList.Contents;
      if err || arrived.None? {
        err := true;
        AsyncDisconnect();
      } else {
        ProcessCallbacks(arrived.value, broken);
      }
    }

    /** redisAsyncHandleWrite on a connected context: n bytes are written, or the write fails. */
    method HandleWrite(n: Option<nat>)
      requires Valid() && !inCallback && Live(V())
      modifies Footprint()
      ensures Valid() && fresh(Footprint() - old(Footprint())) && !inCallback
      ensures V() == if n.None? then Drop(behaviour, old(V()))
                     else old(V()).(obuf := if n.value <= old(obuf) then old(obuf) - n.value else 0)
    {
      hide Teardown, Ordered, CallbackList.Valid, CallbackList.Contents;
      if err || n.None? {
        err := true;
        AsyncDisconnect();
      } else {
        obuf := if n.value <= obuf then obuf - n.value else 0;
      }
    }

    method Handle(e: Event)
      requires Valid() && !inCallback && Live(V())
      modifies Footprint()
      ensures Valid() && fresh(Footprint() - old(Footprint())) && !inCallback
      ensures V() == OnEvent(behaviour, old(V()), e)
    {
      hide OnRead, Teardown, Ordered, CallbackList.Valid, CallbackList.Contents;
      match e
      case UserCommand(fn, len) => var ok := Command(fn, len);
      case UserDisconnect => Disconnect();
      case UserFree => Free();
      case Readable(arrived, broken) => HandleRead(arrived, broken);
      case Writable(n) => HandleWrite(n);
      case ConnectFails =>
        err := true;
        AsyncDisconnect();
    }

    /**
     Any run: whatever the user, the network and the callbacks do, in any order.  The object goes through the states of
     the machine, so that every law of its runs holds of it.
     */
    method Run(events: seq<Event>)
      requires Valid() && !inCallback && Live(V())
      modifies Footprint()
      ensures Valid() && V() == After(behaviour, old(V()), events) && Ran(behaviour, old(V()), V(), events)
    {
      hide Live, OnEvent, After, Whole, Grows, Asked, CallbackList.Valid, CallbackList.Contents;
      ghost var s := V();
      var i := 0;
      AfterNone(behaviour, s, events);
      while i < |events| && !freed && !aborted
        invariant 0 <= i <= |events| && Valid() && fresh(Footprint() - old(Footprint())) && !inCallback
        invariant V() == After(behaviour, s, events[..i])
        decreases |events| - i
      {
        RunKeeps(behaviour, s, events[..i]);
        RunOver(behaviour, s, events[..i]);
        Handle(events[i]);
        AfterNext(behaviour, s, events, i);
        i := i + 1;
      }
      assert events[..|events|] == events;
      if i < |events| { OverStays(behaviour, s, events, i); }
      RunKeeps(behaviour, s, events);
    }
  }
}
