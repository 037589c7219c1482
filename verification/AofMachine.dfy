/**
 The append only file over whole runs: the server logging and flushing, a child rewriting the file in the
 background, the pipe between them with partial writes and reads, the '!' handshake, and failures anywhere.
 What is on disk always recovers the dataset as it was after some prefix of the commands.
 */
module AofMachine {
  import opened Bytes
  import opened AofCommand
  import opened AofParent
  import opened AofLoader

  // ----- What a log means

  predicate IsSelect(argv: Command) { |argv| == 2 && argv[0] == SELECT && AllDigits(argv[1]) }

  /** Replaying a log onto dataset d with database `db` selected; exec runs one command in a database. */
  function Replay<D>(exec: (D, nat, Command) -> D, d: D, db: nat, cmds: seq<Command>): (D, nat)
    decreases |cmds|
  {
    if cmds == [] then (d, db) else
      var (e, b) := Replay(exec, d, db, cmds[..|cmds| - 1]);
      var argv := cmds[|cmds| - 1];
      if IsSelect(argv) then (e, Val(argv[1])) else (exec(e, b, argv), b)
  }

  lemma {:induction false} ReplayConcat<D>(exec: (D, nat, Command) -> D, d: D, db: nat, a: seq<Command>, b: seq<Command>)
    ensures Replay(exec, d, db, a + b) ==
      var (e, k) := Replay(exec, d, db, a); Replay(exec, e, k, b)
    decreases |b|
  {
    if b == [] {
      assert a + b == a;
    } else {
      var init := b[..|b| - 1];
      ReplayConcat(exec, d, db, a, init);
      assert (a + b)[..|a + b| - 1] == a + init;
      assert (a + b)[|a + b| - 1] == b[|b| - 1];
    }
  }

  /** What one feed logs runs the command in the right database, if the log's database is the remembered one. */
  lemma ReplayLogged<D>(exec: (D, nat, Command) -> D, d: D, k: nat, selected: int, db: nat, argv: Command)
    requires selected == -1 || selected == k
    requires !IsSelect(argv)
    ensures Replay(exec, d, k, Logged(selected, db, argv)) == (exec(d, db, argv), db)
  {
    var sel := SelectCommand(db);
    ValDec(db);
    assert IsSelect(sel);
    assert [sel, argv][..1] == [sel];
    assert Replay(exec, d, k, [sel]) == (d, db);
  }

  // ----- The machine

  /** How far the child is. */
  datatype Child =
    | NoChild
    | Writing       // dumping the snapshot and reading differences
    | Asked         // has sent '!' and waits
    | Acked         // has been answered
    | Finished(tmp: seq<Byte>)
    | Died

  datatype System<D> = System(
    parent: Parent,
    child: Child,
    pipe: seq<Byte>,           // differences in flight
    ack: bool,                 // the parent's '!' is in flight
    diff: seq<Byte>,           // differences the child has read
    snapshot: seq<Command>,    // what the child dumps
    mem: D,                    // the dataset in memory
    base: D,                   // the dataset at the fork
    log: seq<Command>,         // the commands the file and the buffer hold
    since: seq<Command>,       // the commands fed since the fork
    down: bool)

  datatype Event =
    | FeedEvent(db: nat, argv: Command)
    | FlushEvent(world: World)
    | ForkEvent(snapshot: seq<Command>)
    | ForkFails                // after the pipes were made
    | Send(n: nat)             // the parent writes n bytes to the pipe
    | Read(n: nat)             // the child reads n bytes from it
    | Ask                      // the child sends '!'
    | Answer(reaches: bool)    // the parent reads it, stops sending and answers
    | HearAck                  // the child reads the answer
    | Finish                   // the child reads what is left and completes its file
    | Die
    | Done(renames: bool)      // the parent reaps the child

  function Min(a: nat, b: nat): nat { if a < b then a else b }

  predicate ByServer(e: Event) { e.FeedEvent? || e.FlushEvent? || e.ForkEvent? || e.ForkFails? || e.Done? }

  /** The server's part: feed, flush, fork, switch. */
  function ServerStep<D>(exec: (D, nat, Command) -> D, s: System<D>, e: Event): System<D>
    requires ByServer(e)
  {
    match e
    case FeedEvent(db, argv) =>
      var cmds := Logged(s.parent.selected, db, argv);
      s.(parent := Feed(s.parent, db, argv), mem := exec(s.mem, db, argv),
         log := if s.parent.state.On? then s.log + cmds else s.log,
         since := if s.parent.child then s.since + cmds else s.since)
    case FlushEvent(w) =>
      if -1 <= w.written <= |s.parent.buf| then
        var (p, r) := Flush(s.parent, w);
        s.(parent := p, down := r.Exited?)
      else s
    case ForkEvent(snapshot) =>
      if s.parent.child then s else
        s.(parent := Fork(s.parent), child := Writing, pipe := [], ack := false, diff := [], snapshot := snapshot,
           base := s.mem, since := [])
    case ForkFails => if s.parent.child then s else s.(parent := s.parent.(stop := false))
    case Done(renames) =>
      if s.child.Finished? && renames then
        s.(parent := Switch(s.parent, s.child.tmp), child := NoChild, log := s.snapshot + s.since)
      else if s.child.Finished? || s.child.Died? then s.(parent := Abandon(s.parent), child := NoChild)
      else s
  }

  /** The pipe, the handshake and the child. */
  function ChildStep<D>(s: System<D>, e: Event): System<D>
    requires !ByServer(e)
  {
    match e
    case Send(n) =>
      if !s.parent.child || s.parent.stop then s else
        var k := Min(n, |s.parent.pending|);
        s.(parent := s.parent.(pending := s.parent.pending[k..]), pipe := s.pipe + s.parent.pending[..k])
    case Read(n) =>
      if s.child.Writing? then
        var k := Min(n, |s.pipe|);
        s.(diff := s.diff + s.pipe[..k], pipe := s.pipe[k..])
      else s
    case Ask => if s.child.Writing? then s.(child := Asked) else s
    case Answer(reaches) =>
      if s.child.Asked? && !s.parent.stop then s.(parent := s.parent.(stop := true), ack := reaches) else s
    case HearAck => if s.child.Asked? && s.ack then s.(child := Acked) else s
    case Finish =>
      if s.child.Acked? then
        s.(diff := s.diff + s.pipe, pipe := [], child := Finished(EncodeLog(s.snapshot) + (s.diff + s.pipe)))
      else s
    case Die => if s.child.NoChild? || s.child.Finished? then s else s.(child := Died)
  }

  function Step<D>(exec: (D, nat, Command) -> D, s: System<D>, e: Event): System<D> {
    if s.down then s
    else if ByServer(e) then ServerStep(exec, s, e)
    else ChildStep(s, e)
  }

  function Run<D>(exec: (D, nat, Command) -> D, s: System<D>, es: seq<Event>): System<D>
    decreases |es|
  {
    if es == [] then s else Step(exec, Run(exec, s, es[..|es| - 1]), es[|es| - 1])
  }

  /**
   What the environment owes: commands are not SELECTs and, like the database number, fit the C types; and the
   child's dump of the dataset rebuilds it from nothing.
   */
  ghost predicate Allowed<D>(exec: (D, nat, Command) -> D, empty: D, s: System<D>, e: Event) {
    match e
    case FeedEvent(db, argv) => !IsSelect(argv) && Loggable(argv) && db < INT_LIMIT
    case ForkEvent(snapshot) => AllLoggable(snapshot) && Replay(exec, empty, 0, snapshot).0 == s.mem
    case _ => true
  }

  // ----- What holds

  /** The log, as flushed and buffered, replays to the dataset in memory, in the remembered database. */
  ghost predicate LogOk<D>(exec: (D, nat, Command) -> D, empty: D, s: System<D>) {
    s.parent.state.On? ==>
      && AllLoggable(s.log)
      && (!s.down ==> s.parent.file + s.parent.buf == EncodeLog(s.log))
      && s.parent.file <= EncodeLog(s.log)
      && Replay(exec, empty, 0, s.log).0 == s.mem
      && (s.parent.selected == -1 || s.parent.selected == Replay(exec, empty, 0, s.log).1)
  }

  /** The parent knows of a child exactly while there is one, and buffers differences only then. */
  ghost predicate ChildOk<D>(s: System<D>) {
    (s.parent.child <==> !s.child.NoChild?) && (!s.parent.child ==> s.parent.pending == [])
  }

  /** Wherever they are, the differences since the fork are all there, once and in order. */
  ghost predicate StreamOk<D>(s: System<D>) {
    s.parent.child ==>
      && AllLoggable(s.snapshot) && AllLoggable(s.since)
      && s.diff + s.pipe + s.parent.pending == EncodeLog(s.since)
      && (s.child.Acked? || s.child.Finished? || s.ack ==> s.parent.stop)
      && (s.child.Finished? ==> s.pipe == [] && s.child.tmp == EncodeLog(s.snapshot) + s.diff)
  }

  /** The differences start with a SELECT and take the dataset of the fork to the one in memory from any database. */
  ghost predicate SinceOk<D>(exec: (D, nat, Command) -> D, empty: D, s: System<D>) {
    s.parent.child ==>
      && Replay(exec, empty, 0, s.snapshot).0 == s.base
      && (s.since == [] ==> s.base == s.mem && s.parent.selected == -1)
      && (s.since != [] ==> IsSelect(s.since[0]))
      && (s.since != [] ==> forall k: nat {:trigger Replay(exec, s.base, k, s.since)} ::
            Replay(exec, s.base, k, s.since).0 == s.mem && Replay(exec, s.base, k, s.since).1 == s.parent.selected)
  }

  ghost predicate Inv<D>(exec: (D, nat, Command) -> D, empty: D, s: System<D>) {
    LogOk(exec, empty, s) && ChildOk(s) && StreamOk(s) && SinceOk(exec, empty, s)
  }

  // ----- The server's steps

  lemma LoggedLoggable(selected: int, db: nat, argv: Command)
    requires Loggable(argv) && db < INT_LIMIT
    ensures AllLoggable(Logged(selected, db, argv))
  {
    assert Pow10(3) == 1000;
    assert Pow10(6) == 1000 * Pow10(3);
    assert Pow10(9) == 1000 * Pow10(6);
    DecLength(db, 10);
  }

  lemma FeedLog<D>(exec: (D, nat, Command) -> D, empty: D, s: System<D>, db: nat, argv: Command)
    requires LogOk(exec, empty, s) && !IsSelect(argv) && Loggable(argv) && db < INT_LIMIT && !s.down
    ensures LogOk(exec, empty, ServerStep(exec, s, FeedEvent(db, argv)))
  {
    hide EncodeLog, Replay, Logged, IsSelect, Loggable;
    if s.parent.state.On? {
      var cmds := Logged(s.parent.selected, db, argv);
      var (d, k) := Replay(exec, empty, 0, s.log);
      LoggedLoggable(s.parent.selected, db, argv);
      ReplayConcat(exec, empty, 0, s.log, cmds);
      ReplayLogged(exec, d, k, s.parent.selected, db, argv);
      EncodeLogConcat(s.log, cmds);
      var bytes := EncodeLog(cmds);
      assert s.parent.file + (s.parent.buf + bytes) == s.parent.file + s.parent.buf + bytes;
    }
  }

  lemma FeedStream<D>(exec: (D, nat, Command) -> D, s: System<D>, db: nat, argv: Command)
    requires StreamOk(s) && Loggable(argv) && db < INT_LIMIT
    ensures StreamOk(ServerStep(exec, s, FeedEvent(db, argv)))
  {
    hide EncodeLog, Logged, Loggable;
    if s.parent.child {
      var cmds := Logged(s.parent.selected, db, argv);
      LoggedLoggable(s.parent.selected, db, argv);
      EncodeLogConcat(s.since, cmds);
      var bytes := EncodeLog(cmds);
      assert s.diff + s.pipe + (s.parent.pending + bytes) == s.diff + s.pipe + s.parent.pending + bytes;
    }
  }

  lemma FeedSince<D>(exec: (D, nat, Command) -> D, empty: D, s: System<D>, db: nat, argv: Command)
    requires SinceOk(exec, empty, s) && !IsSelect(argv)
    ensures SinceOk(exec, empty, ServerStep(exec, s, FeedEvent(db, argv)))
  {
    if s.parent.child {
      var cmds := Logged(s.parent.selected, db, argv);
      var t := ServerStep(exec, s, FeedEvent(db, argv));
      if s.since == [] {
        assert IsSelect(SelectCommand(db));
        assert t.since == cmds;
      } else {
        assert t.since[0] == s.since[0];
      }
      forall k: nat
        ensures Replay(exec, t.base, k, t.since) == (t.mem, db)
      {
        var (d, j) := Replay(exec, s.base, k, s.since);
        ReplayConcat(exec, s.base, k, s.since, cmds);
        ReplayLogged(exec, d, j, s.parent.selected, db, argv);
      }
    }
  }

  lemma FlushStep<D>(exec: (D, nat, Command) -> D, empty: D, s: System<D>, w: World)
    requires Inv(exec, empty, s) && !s.down
    ensures Inv(exec, empty, ServerStep(exec, s, FlushEvent(w)))
  {
    hide EncodeLog, Replay;
    if -1 <= w.written <= |s.parent.buf| { FlushConserves(s.parent, w); }
  }

  lemma ForkStep<D>(exec: (D, nat, Command) -> D, empty: D, s: System<D>, snapshot: seq<Command>)
    requires Inv(exec, empty, s) && Allowed(exec, empty, s, ForkEvent(snapshot))
    ensures Inv(exec, empty, ServerStep(exec, s, ForkEvent(snapshot)))
  {
  }

  lemma ForkFailsStep<D>(exec: (D, nat, Command) -> D, empty: D, s: System<D>)
    requires Inv(exec, empty, s)
    ensures Inv(exec, empty, ServerStep(exec, s, ForkFails))
  {
    hide EncodeLog, Replay;
  }

  /** The installed file is the child's snapshot followed by everything fed since the fork. */
  lemma SwitchBytes<D>(s: System<D>)
    requires StreamOk(s) && s.parent.child && s.child.Finished?
    ensures Switch(s.parent, s.child.tmp).file == EncodeLog(s.snapshot + s.since)
  {
    hide EncodeLog;
    EncodeLogConcat(s.snapshot, s.since);
    assert s.diff + s.pipe == s.diff;
    assert EncodeLog(s.snapshot) + s.diff + s.parent.pending == EncodeLog(s.snapshot) + (s.diff + s.parent.pending);
  }

  /** Replaying it gives the dataset in memory, so nothing in the dropped buffer is lost. */
  lemma SwitchReplays<D>(exec: (D, nat, Command) -> D, empty: D, s: System<D>)
    requires SinceOk(exec, empty, s) && s.parent.child
    ensures Replay(exec, empty, 0, s.snapshot + s.since).0 == s.mem
  {
    ReplayConcat(exec, empty, 0, s.snapshot, s.since);
    var k := Replay(exec, empty, 0, s.snapshot).1;
    assert s.since != [] ==> Replay(exec, s.base, k, s.since).0 == s.mem;
  }

  lemma DoneStep<D>(exec: (D, nat, Command) -> D, empty: D, s: System<D>, renames: bool)
    requires Inv(exec, empty, s) && !s.down
    ensures Inv(exec, empty, ServerStep(exec, s, Done(renames)))
  {
    hide EncodeLog, Replay;
    if s.child.Finished? && renames {
      SwitchBytes(s);
      SwitchReplays(exec, empty, s);
      assert Switch(s.parent, s.child.tmp).file + [] == Switch(s.parent, s.child.tmp).file;
    }
  }

  // ----- The pipe and the child

  lemma MovedOn(a: seq<Byte>, b: seq<Byte>, c: seq<Byte>, k: nat)
    requires k <= |b|
    ensures a + b[..k] + b[k..] + c == a + b + c && a + (b[..k] + (b[k..] + c)) == a + (b + c)
  {
    assert b == b[..k] + b[k..];
  }

  lemma SendStream<D>(s: System<D>, n: nat)
    requires StreamOk(s)
    ensures StreamOk(ChildStep(s, Send(n)))
  {
    hide EncodeLog;
    if s.parent.child && !s.parent.stop {
      var pending := s.parent.pending;
      var k := Min(n, |pending|);
      assert pending == pending[..k] + pending[k..];
      assert s.diff + (s.pipe + pending[..k]) + pending[k..] == s.diff + s.pipe + pending;
    }
  }

  lemma ReadStream<D>(s: System<D>, n: nat)
    requires StreamOk(s)
    ensures StreamOk(ChildStep(s, Read(n)))
  {
    hide EncodeLog;
    if s.child.Writing? {
      var k := Min(n, |s.pipe|);
      MovedOn(s.diff, s.pipe, s.parent.pending, k);
    }
  }

  lemma FinishStream<D>(s: System<D>)
    requires StreamOk(s)
    ensures StreamOk(ChildStep(s, Finish))
  {
    hide EncodeLog;
    if s.child.Acked? { assert s.diff + s.pipe + [] + s.parent.pending == s.diff + s.pipe + s.parent.pending; }
  }

  lemma ChildStepInv<D>(exec: (D, nat, Command) -> D, empty: D, s: System<D>, e: Event)
    requires Inv(exec, empty, s) && !ByServer(e)
    ensures Inv(exec, empty, ChildStep(s, e))
  {
    hide EncodeLog, Replay;
    match e
    case Send(n) => SendStream(s, n);
    case Read(n) => ReadStream(s, n);
    case Finish => FinishStream(s);
    case _ =>
  }

  // ----- Whole runs

  lemma StepInv<D>(exec: (D, nat, Command) -> D, empty: D, s: System<D>, e: Event)
    requires Inv(exec, empty, s) && Allowed(exec, empty, s, e)
    ensures Inv(exec, empty, Step(exec, s, e))
  {
    hide LogOk, StreamOk, SinceOk, ServerStep, ChildStep;
    if !s.down {
      match e
      case FeedEvent(db, argv) =>
        FeedLog(exec, empty, s, db, argv);
        FeedStream(exec, s, db, argv);
        FeedSince(exec, empty, s, db, argv);
        FeedKeeps(exec, s, db, argv);
      case FlushEvent(w) => FlushStep(exec, empty, s, w);
      case ForkEvent(snapshot) => ForkStep(exec, empty, s, snapshot);
      case ForkFails => ForkFailsStep(exec, empty, s);
      case Done(renames) => DoneStep(exec, empty, s, renames);
      case _ => ChildStepInv(exec, empty, s, e);
    }
  }

  lemma FeedKeeps<D>(exec: (D, nat, Command) -> D, s: System<D>, db: nat, argv: Command)
    requires ChildOk(s)
    ensures ChildOk(ServerStep(exec, s, FeedEvent(db, argv)))
  {
  }

  ghost predicate RunAllowed<D>(exec: (D, nat, Command) -> D, empty: D, s: System<D>, es: seq<Event>) {
    forall i :: 0 <= i < |es| ==> Allowed(exec, empty, Run(exec, s, es[..i]), es[i])
  }

  lemma {:induction false} RunInv<D>(exec: (D, nat, Command) -> D, empty: D, s: System<D>, es: seq<Event>)
    requires Inv(exec, empty, s) && RunAllowed(exec, empty, s, es)
    ensures Inv(exec, empty, Run(exec, s, es))
    decreases |es|
  {
    hide Inv, Step, Allowed;
    if es != [] {
      var init := es[..|es| - 1];
      assert forall i :: 0 <= i < |init| ==> init[..i] == es[..i];
      RunInv(exec, empty, s, init);
      StepInv(exec, empty, Run(exec, s, init), es[|es| - 1]);
    }
  }

  /** A server with an empty log and nothing in flight. */
  function Fresh<D>(empty: D, state: AofState): System<D> {
    System(Parent(state, -1, [], [], 0, true, false, [], false), NoChild, [], false, [], [], empty, empty, [], [], false)
  }

  /**
   The rewrite loses, repeats and reorders nothing: when the parent switches files, the new file is the snapshot
   followed by every buffer fed since the fork, the first of which starts with a SELECT, and replaying it from
   nothing rebuilds the dataset in memory.
   */
  lemma RewriteIsComplete<D>(exec: (D, nat, Command) -> D, empty: D, state: AofState, es: seq<Event>)
    requires RunAllowed(exec, empty, Fresh(empty, state), es)
    ensures var s := Run(exec, Fresh(empty, state), es);
      s.child.Finished? && !s.down ==>
        var t := Step(exec, s, Done(true));
        && t.parent.file == EncodeLog(s.snapshot) + EncodeLog(s.since) && t.parent.buf == []
        && (s.since != [] ==> IsSelect(s.since[0]))
        && Replay(exec, empty, 0, s.snapshot + s.since).0 == s.mem
  {
    hide EncodeLog, Replay, Run;
    FreshInv(exec, empty, state);
    RunInv(exec, empty, Fresh(empty, state), es);
    var s := Run(exec, Fresh(empty, state), es);
    if s.child.Finished? && !s.down {
      SwitchBytes(s);
      EncodeLogConcat(s.snapshot, s.since);
      SwitchReplays(exec, empty, s);
    }
  }

  lemma FreshInv<D>(exec: (D, nat, Command) -> D, empty: D, state: AofState)
    ensures Inv(exec, empty, Fresh(empty, state))
  {
  }

  /**
   Crash recovery: at any moment of any run with the log on, even after an exit on a write error, loading the
   file as it is on disk, by a server that knows the commands logged, runs a prefix of them, namely all those
   completely on disk; and the whole log rebuilds the dataset in memory.
   */
  lemma CrashRecovers<D>(exec: (D, nat, Command) -> D, empty: D, state: AofState, es: seq<Event>, known: Table)
    returns (k: nat)
    requires RunAllowed(exec, empty, Fresh(empty, state), es)
    requires var log := Run(exec, Fresh(empty, state), es).log; KnownUpTo(known, log, |log|)
    ensures var s := Run(exec, Fresh(empty, state), es);
      s.parent.state.On? ==>
        && CompleteUpTo(s.log, |s.parent.file|, k)
        && (s.parent.file != [] ==> Load(s.parent.file, known, true) == Loaded(s.log[..k], |EncodeLog(s.log[..k])|))
        && Replay(exec, empty, 0, s.log).0 == s.mem
        && (s.parent.buf == [] && !s.down ==> k == |s.log|)
  {
    hide EncodeLog, Replay, Run, Load, CompleteUpTo;
    FreshInv(exec, empty, state);
    RunInv(exec, empty, Fresh(empty, state), es);
    var s := Run(exec, Fresh(empty, state), es);
    k := 0;
    if s.parent.state.On? {
      var cut := |s.parent.file|;
      k := SomeComplete(s.log, cut);
      assert EncodeLog(s.log)[..cut] == s.parent.file;
      if s.parent.file != [] { TruncatedLoad(s.log, cut, k, known, |s.log|, true); }
      if s.parent.buf == [] && !s.down {
        assert s.parent.file + [] == s.parent.file;
        AllComplete(s.log, k);
      }
    }
  }

  lemma AllComplete(cmds: seq<Command>, k: nat)
    requires CompleteUpTo(cmds, |EncodeLog(cmds)|, k)
    ensures k == |cmds|
  {
    hide EncodeCommand;
    if k < |cmds| { EncodeLogMonotone(cmds, k + 1); }
  }

  lemma EncodeLogMonotone(cmds: seq<Command>, k: nat)
    requires k <= |cmds|
    ensures |EncodeLog(cmds[..k])| <= |EncodeLog(cmds)|
  {
    EncodeLogConcat(cmds[..k], cmds[k..]);
    assert cmds[..k] + cmds[k..] == cmds;
  }
}
