/**
 A cluster as a whole: every node's view, the packets in flight, and a record of who voted, who was
 counted, who won and which configEpochs each node has used.  Packets may be delayed, reordered and
 lost without bound; a packet is delivered at most once, as TCP does.
 */
module ClusterNet {
  import opened Optional
  import opened ClusterView

  datatype Vote = Vote(voter: Id, epoch: nat, candidate: Id)

  datatype WinRecord = WinRecord(candidate: Id, epoch: nat, size: nat, tally: set<Vote>)

  datatype Net = Net(views: map<Id, View>, wire: multiset<Msg>, votes: set<Vote>, tally: map<Id, set<Vote>>,
                     wins: set<WinRecord>, epochs: map<Id, set<nat>>)

  datatype Event =
    | Deliver(msg: Msg, clock: Clock)
    | Lose(msg: Msg)
    | SendPing(from: Id, to: Id, wantsPong: bool)
    | Cron(node: Id, clock: Clock)
    | Run(node: Id, cmd: Command)

  // ----- Steps

  predicate Up(s: Net, i: Id) {
    i in s.views && i in s.epochs && i in s.tally && s.views[i].myself == i && Known(s.views[i]) && !s.views[i].down
  }

  /** Node i moves to view w and sends out. */
  function Move(s: Net, i: Id, w: View, out: set<Msg>): Net
    requires Known(w)
  {
    s.(views := s.views[i := w],
       wire := s.wire + multiset(out),
       epochs := s.epochs[i := (if i in s.epochs then s.epochs[i] else {}) + {Me(w).configEpoch}])
  }

  function VoteOf(m: Msg): Vote { Vote(m.hdr.sender, m.hdr.currentEpoch, m.dst) }

  function AckFor(v: View, candidate: Id): Msg
    requires Known(v)
  {
    Msg(candidate, BuildHeader(v), AuthAck)
  }

  function Broadcast(v: View, h: Header, body: Body): set<Msg> {
    set n | n in v.nodes && n != v.myself :: Msg(n, h, body)
  }

  ghost function DeliverTo(s: Net, m: Msg, c: Clock): Net
    requires Up(s, m.dst)
  {
    var v := s.views[m.dst];
    match m.body
    case Ping(wantsPong) => Move(s, m.dst, ProcessPing(v, m.hdr), PingReplies(v, m.hdr, wantsPong))
    case Update(about, epoch, claimed) => Move(s, m.dst, ProcessUpdate(v, m.hdr, about, epoch, claimed), {})
    case AuthRequest =>
      var a := AbsorbHeader(v, m.hdr);
      if Grants(a, m.hdr, c) then
        var ack := AckFor(a, m.hdr.sender);
        Move(s, m.dst, RecordVote(a, m.hdr, c), {ack}).(votes := s.votes + {VoteOf(ack)})
      else Move(s, m.dst, a, {})
    case AuthAck =>
      var a := AbsorbHeader(v, m.hdr);
      if Counts(a, m.hdr) then
        Move(s, m.dst, ProcessAuthAck(v, m.hdr), {}).(tally := s.tally[m.dst := s.tally[m.dst] + {VoteOf(m)}])
      else Move(s, m.dst, a, {})
  }

  /** clusterHandleSlaveFailover at node i; a reset forgets the tally, a win records it. */
  function CronAt(s: Net, i: Id, c: Clock): Net
    requires Up(s, i)
  {
    var v := s.views[i];
    var w := HandleFailover(v, c);
    match FailoverBranch(v, c)
    case Reset => Move(s, i, w, {}).(tally := s.tally[i := {}])
    case Ask => Move(s, i, w, Broadcast(w, BuildHeader(w).(forceAck := v.manualEnd), AuthRequest))
    case Win =>
      Move(s, i, w, Broadcast(w, BuildHeader(w), Ping(false))).(
      wins := s.wins + {WinRecord(i, v.authEpoch, v.size, s.tally[i])})
    case _ => Move(s, i, w, {})
  }

  ghost function Apply(s: Net, e: Event): Net {
    match e
    case Deliver(m, c) =>
      if m in s.wire && Up(s, m.dst) then DeliverTo(s.(wire := s.wire - multiset{m}), m, c) else s
    case Lose(m) => s.(wire := s.wire - multiset{m})
    case SendPing(i, to, wantsPong) =>
      if Up(s, i) && to != i then Move(s, i, s.views[i], {Msg(to, BuildHeader(s.views[i]), Ping(wantsPong))}) else s
    case Cron(i, c) => if Up(s, i) then CronAt(s, i, c) else s
    case Run(i, cmd) =>
      if Up(s, i) then
        var v := s.views[i];
        var w := RunCommand(v, cmd);
        Move(s, i, w, if cmd.Takeover? && !Me(v).master && Me(v).slaveof.Some?
                      then Broadcast(w, BuildHeader(w), Ping(false)) else {})
      else s
  }

  ghost function After(s: Net, es: seq<Event>): Net
    decreases |es|
  {
    if es == [] then s else Apply(After(s, es[..|es| - 1]), es[|es| - 1])
  }
}
