/**
 Failover elections over every run of the network, whatever other packets, commands and epoch changes
 are interleaved with them.
 */
module ClusterElection {
  import opened ClusterView
  import opened ClusterNet
  import opened ClusterEpochs

  /** A master votes once per epoch, for a candidate that asked in that epoch or an earlier one. */
  ghost predicate VotesOk(s: Net) {
    && (forall x :: x in s.votes ==>
          && x.voter in s.views && x.epoch <= s.views[x.voter].lastVoteEpoch
          && x.candidate in s.views && x.epoch <= s.views[x.candidate].authEpoch)
    && (forall x, y :: x in s.votes && y in s.votes && x.voter == y.voter && x.epoch == y.epoch ==> x == y)
  }

  /** An ACK in flight stands for one vote that was not counted yet. */
  ghost predicate AcksOk(s: Net) {
    && (forall m :: m in s.wire && m.body.AuthAck? ==>
          s.wire[m] == 1 && VoteOf(m) in s.votes && m.dst in s.tally && VoteOf(m) !in s.tally[m.dst])
    && (forall m, n :: m in s.wire && n in s.wire && m.body.AuthAck? && n.body.AuthAck? && VoteOf(m) == VoteOf(n) ==>
          m == n)
  }

  ghost predicate RequestsOk(s: Net) {
    forall m :: m in s.wire && m.body.AuthRequest? ==>
      m.hdr.sender in s.views && m.hdr.currentEpoch <= s.views[m.hdr.sender].authEpoch
  }

  ghost predicate TallyFits(c: Id, tally: set<Vote>, count: nat, authEpoch: nat, votes: set<Vote>) {
    && tally <= votes && |tally| == count
    && (forall x :: x in tally ==> x.candidate == c && x.epoch <= authEpoch)
  }

  ghost predicate TallyOk(s: Net) {
    s.tally.Keys == s.views.Keys &&
    forall c :: c in s.views ==> TallyFits(c, s.tally[c], s.views[c].authCount, s.views[c].authEpoch, s.votes)
  }

  ghost predicate WinsOk(s: Net) {
    forall w :: w in s.wins ==>
      && w.tally <= s.votes && w.size / 2 + 1 <= |w.tally|
      && (forall x :: x in w.tally ==> x.candidate == w.candidate && x.epoch <= w.epoch)
  }

  ghost predicate VotingInv(s: Net) { VotesOk(s) && AcksOk(s) && RequestsOk(s) && TallyOk(s) && WinsOk(s) }

  ghost predicate ElectionInv(s: Net) { EpochInv(s) && VotingInv(s) }

  // ----- What keeps each part

  /** Election epochs only grow. */
  ghost predicate Grew(s: Net, t: Net) {
    s.views.Keys == t.views.Keys &&
    forall i :: i in s.views ==>
      s.views[i].lastVoteEpoch <= t.views[i].lastVoteEpoch && s.views[i].authEpoch <= t.views[i].authEpoch
  }

  /** The ACKs in flight in t were in flight in s. */
  ghost predicate NoNewAcks(s: Net, t: Net) {
    forall m :: m in t.wire && m.body.AuthAck? ==> m in s.wire && t.wire[m] <= s.wire[m]
  }

  lemma VotesKept(s: Net, t: Net)
    requires VotesOk(s) && Grew(s, t) && t.votes == s.votes
    ensures VotesOk(t)
  {
  }

  lemma AcksKept(s: Net, t: Net)
    requires AcksOk(s) && NoNewAcks(s, t) && s.votes <= t.votes && t.tally.Keys == s.tally.Keys
    requires forall c :: c in s.tally ==> t.tally[c] <= s.tally[c]
    ensures AcksOk(t)
  {
  }

  lemma RequestsKept(s: Net, t: Net)
    requires RequestsOk(s) && Grew(s, t)
    requires forall m :: m in t.wire && m.body.AuthRequest? && m !in s.wire ==>
      m.hdr.sender in t.views && m.hdr.currentEpoch <= t.views[m.hdr.sender].authEpoch
    ensures RequestsOk(t)
  {
  }

  /** Only the tally of i may have changed. */
  lemma TallyKept(s: Net, t: Net, i: Id)
    requires TallyOk(s) && Grew(s, t) && s.votes <= t.votes && t.tally.Keys == s.tally.Keys
    requires forall c :: c in s.views && c != i ==>
      t.tally[c] == s.tally[c] && t.views[c].authCount == s.views[c].authCount
    requires i in s.views
    requires TallyFits(i, t.tally[i], t.views[i].authCount, t.views[i].authEpoch, t.votes)
    ensures TallyOk(t)
  {
    forall c | c in t.views && c != i
      ensures TallyFits(c, t.tally[c], t.views[c].authCount, t.views[c].authEpoch, t.votes)
    {
      assert TallyFits(c, s.tally[c], s.views[c].authCount, s.views[c].authEpoch, s.votes);
    }
  }

  lemma WinsKept(s: Net, t: Net)
    requires WinsOk(s) && s.votes <= t.votes && t.wins == s.wins
    ensures WinsOk(t)
  {
  }

  predicate Neutral(out: set<Msg>) { forall m :: m in out ==> !m.body.AuthAck? && !m.body.AuthRequest? }

  /** Facts about a move that adds no ACK. */
  lemma MoveFacts(s: Net, i: Id, w: View, out: set<Msg>)
    requires i in s.views && Known(w)
    requires s.views[i].lastVoteEpoch <= w.lastVoteEpoch && s.views[i].authEpoch <= w.authEpoch
    requires forall m :: m in out ==> !m.body.AuthAck?
    ensures Grew(s, Move(s, i, w, out)) && NoNewAcks(s, Move(s, i, w, out))
    ensures forall m :: m in Move(s, i, w, out).wire && m !in s.wire ==> m in out
  {
    hide Known;
  }

  // ----- Steps that leave elections alone

  lemma NeutralMove(s: Net, i: Id, w: View, out: set<Msg>)
    requires VotingInv(s)
    requires i in s.views && Known(w) && KeepsElection(s.views[i], w) && Neutral(out)
    ensures VotingInv(Move(s, i, w, out))
  {
    hide Known, TallyFits, VotesOk, AcksOk, RequestsOk, WinsOk, Grew, NoNewAcks;
    var t := Move(s, i, w, out);
    MoveFacts(s, i, w, out);
    VotesKept(s, t);
    AcksKept(s, t);
    RequestsKept(s, t);
    TallyKept(s, t, i);
    WinsKept(s, t);
  }

  lemma DroppedMessage(s: Net, m: Msg)
    requires VotingInv(s)
    ensures VotingInv(s.(wire := s.wire - multiset{m}))
  {
    hide TallyFits;
  }

  // ----- A vote

  /** The ACK carries exactly the epoch of the request. */
  lemma GrantAtRequestEpoch(v: View, h: Header, c: Clock)
    requires Known(v)
    requires Grants(AbsorbHeader(v, h), h, c)
    ensures AbsorbHeader(v, h).currentEpoch == h.currentEpoch
    ensures VoteOf(AckFor(AbsorbHeader(v, h), h.sender)) == Vote(v.myself, h.currentEpoch, h.sender)
  {
  }

  lemma NewVoteOk(s: Net, t: Net, x: Vote)
    requires VotesOk(s) && Grew(s, t) && t.votes == s.votes + {x}
    requires x.voter in s.views && s.views[x.voter].lastVoteEpoch < x.epoch <= t.views[x.voter].lastVoteEpoch
    requires x.candidate in s.views && x.epoch <= t.views[x.candidate].authEpoch
    ensures VotesOk(t) && x !in s.votes
  {
  }

  lemma NewAckOk(s: Net, t: Net, ack: Msg)
    requires AcksOk(s) && TallyOk(s) && ack.body.AuthAck? && ack.dst in s.views
    requires t.tally == s.tally && t.wire == s.wire + multiset{ack} && t.votes == s.votes + {VoteOf(ack)}
    requires VoteOf(ack) !in s.votes
    ensures AcksOk(t)
  {
    assert ack !in s.wire;
    assert TallyFits(ack.dst, s.tally[ack.dst], s.views[ack.dst].authCount, s.views[ack.dst].authEpoch, s.votes);
  }

  lemma VoteStep(s: Net, i: Id, w: View, ack: Msg)
    requires VotingInv(s)
    requires i in s.views && Known(w) && w.myself == i
    requires ack.body.AuthAck? && ack.hdr.sender == i && ack.dst in s.views
    requires w.authEpoch == s.views[i].authEpoch && w.authCount == s.views[i].authCount
    requires s.views[i].lastVoteEpoch < w.lastVoteEpoch == ack.hdr.currentEpoch
    requires ack.hdr.currentEpoch <= s.views[ack.dst].authEpoch
    ensures VotingInv(Move(s, i, w, {ack}).(votes := s.votes + {VoteOf(ack)}))
  {
    hide Known, VotesOk, AcksOk, RequestsOk, WinsOk;
    var t := Move(s, i, w, {ack}).(votes := s.votes + {VoteOf(ack)});
    assert t.wire == s.wire + multiset{ack};
    NewVoteOk(s, t, VoteOf(ack));
    NewAckOk(s, t, ack);
    RequestsKept(s, t);
    TallyKept(s, t, i);
    WinsKept(s, t);
  }

  // ----- An ACK

  /** An ACK for this node that passes the epoch test belongs to the last election it started. */
  lemma CountedAtElectionEpoch(s: Net, m: Msg)
    requires VotesOk(s) && VoteOf(m) in s.votes && Up(s, m.dst)
    requires Counts(AbsorbHeader(s.views[m.dst], m.hdr), m.hdr)
    ensures m.hdr.currentEpoch == s.views[m.dst].authEpoch
  {
  }

  lemma CountedAckOk(s: Net, t: Net, m: Msg)
    requires AcksOk(s) && m.dst in s.tally && t.wire == s.wire && t.votes == s.votes
    requires t.tally == s.tally[m.dst := s.tally[m.dst] + {VoteOf(m)}]
    requires forall n :: n in s.wire && n.body.AuthAck? ==> VoteOf(n) != VoteOf(m)
    ensures AcksOk(t)
  {
  }

  lemma AckStep(s: Net, m: Msg, w: View)
    requires VotingInv(s)
    requires m.body.AuthAck? && m.dst in s.views && Known(w) && w.myself == m.dst
    requires VoteOf(m) in s.votes && VoteOf(m) !in s.tally[m.dst]
    requires forall n :: n in s.wire && n.body.AuthAck? ==> VoteOf(n) != VoteOf(m)
    requires w.authEpoch == s.views[m.dst].authEpoch && w.authCount == s.views[m.dst].authCount + 1
    requires w.lastVoteEpoch == s.views[m.dst].lastVoteEpoch && VoteOf(m).epoch <= w.authEpoch
    ensures VotingInv(Move(s, m.dst, w, {}).(tally := s.tally[m.dst := s.tally[m.dst] + {VoteOf(m)}]))
  {
    hide Known, AcksOk, RequestsOk, WinsOk, VotesOk;
    var t := Move(s, m.dst, w, {}).(tally := s.tally[m.dst := s.tally[m.dst] + {VoteOf(m)}]);
    assert t.wire == s.wire;
    VotesKept(s, t);
    CountedAckOk(s, t, m);
    RequestsKept(s, t);
    assert TallyFits(m.dst, s.tally[m.dst], s.views[m.dst].authCount, s.views[m.dst].authEpoch, s.votes);
    TallyKept(s, t, m.dst);
    WinsKept(s, t);
  }

  // ----- The candidate's own steps

  lemma ResetStep(s: Net, i: Id, w: View)
    requires VotingInv(s)
    requires i in s.views && Known(w) && w.myself == i && w.authCount == 0
    requires w.authEpoch == s.views[i].authEpoch && w.lastVoteEpoch == s.views[i].lastVoteEpoch
    ensures VotingInv(Move(s, i, w, {}).(tally := s.tally[i := {}]))
  {
    hide Known, AcksOk, RequestsOk, WinsOk, VotesOk;
    var t := Move(s, i, w, {}).(tally := s.tally[i := {}]);
    assert t.wire == s.wire;
    VotesKept(s, t);
    AcksKept(s, t);
    RequestsKept(s, t);
    TallyKept(s, t, i);
    WinsKept(s, t);
  }

  lemma AskStep(s: Net, i: Id, w: View, out: set<Msg>)
    requires VotingInv(s)
    requires i in s.views && Known(w) && w.myself == i && w.authCount == s.views[i].authCount
    requires s.views[i].authEpoch <= w.authEpoch && w.lastVoteEpoch == s.views[i].lastVoteEpoch
    requires forall m :: m in out ==> m.body.AuthRequest? && m.hdr.sender == i && m.hdr.currentEpoch == w.authEpoch
    ensures VotingInv(Move(s, i, w, out))
  {
    hide Known, AcksOk, RequestsOk, WinsOk, VotesOk, Grew, NoNewAcks;
    var t := Move(s, i, w, out);
    MoveFacts(s, i, w, out);
    VotesKept(s, t);
    AcksKept(s, t);
    RequestsKept(s, t);
    assert TallyFits(i, s.tally[i], s.views[i].authCount, s.views[i].authEpoch, s.votes);
    TallyKept(s, t, i);
    WinsKept(s, t);
  }

  lemma NewWinOk(s: Net, t: Net, i: Id)
    requires WinsOk(s) && TallyOk(s) && i in s.views && t.votes == s.votes
    requires s.views[i].size / 2 + 1 <= s.views[i].authCount
    requires t.wins == s.wins + {WinRecord(i, s.views[i].authEpoch, s.views[i].size, s.tally[i])}
    ensures WinsOk(t)
  {
    assert TallyFits(i, s.tally[i], s.views[i].authCount, s.views[i].authEpoch, s.votes);
  }

  lemma WinStep(s: Net, i: Id, w: View, out: set<Msg>)
    requires VotingInv(s)
    requires i in s.views && Known(w) && w.myself == i && KeepsElection(s.views[i], w) && Neutral(out)
    requires s.views[i].size / 2 + 1 <= s.views[i].authCount
    ensures VotingInv(Move(s, i, w, out).(
      wins := s.wins + {WinRecord(i, s.views[i].authEpoch, s.views[i].size, s.tally[i])}))
  {
    hide Known, KeepsElection, Neutral, WinsOk, TallyFits;
    NeutralMove(s, i, w, out);
    NewWinOk(s, Move(s, i, w, out).(
             wins := s.wins + {WinRecord(i, s.views[i].authEpoch, s.views[i].size, s.tally[i])}), i);
  }

  // ----- Whole runs

  lemma DeliverNeutral(s: Net, m: Msg, c: Clock)
    requires EpochInv(s) && VotingInv(s) && Up(s, m.dst) && MsgOk(m) && (m.body.Ping? || m.body.Update?)
    ensures VotingInv(DeliverTo(s, m, c))
  {
    hide Known, ProcessPing, PingReplies, ProcessUpdate, AbsorbHeader, Grants, RecordVote, Counts, BuildHeader,
      ProcessAuthAck, VotingInv, KeepsElection, ViewOk, EpochsBounded;
    var v := s.views[m.dst];
    if m.body.Ping? {
      ViewOkParts(m.dst, v);
      PingRepliesBounded(v, m.hdr, m.body.wantsPong);
      NeutralMove(s, m.dst, ProcessPing(v, m.hdr), PingReplies(v, m.hdr, m.body.wantsPong));
    } else {
      NeutralMove(s, m.dst, ProcessUpdate(v, m.hdr, m.body.about, m.body.epoch, m.body.slots), {});
    }
  }

  lemma GrantFacts(v: View, h: Header, c: Clock)
    requires Known(v) && v.lastVoteEpoch <= v.currentEpoch && Grants(v, h, c)
    ensures var w := RecordVote(v, h, c);
      && Known(w) && w.myself == v.myself && v.lastVoteEpoch < w.lastVoteEpoch == v.currentEpoch
      && w.authEpoch == v.authEpoch && w.authCount == v.authCount
  {
  }

  lemma DeliverRequestVoting(s: Net, m: Msg, c: Clock)
    requires EpochInv(s) && VotingInv(s) && Up(s, m.dst) && MsgOk(m) && m.body.AuthRequest?
    requires m.hdr.sender in s.views && m.hdr.currentEpoch <= s.views[m.hdr.sender].authEpoch
    ensures VotingInv(DeliverTo(s, m, c))
  {
    hide Known, ProcessPing, PingReplies, ProcessUpdate, AbsorbHeader, Grants, RecordVote, Counts, BuildHeader,
      ProcessAuthAck, VotingInv, ViewOk, EpochsBounded;
    var v := s.views[m.dst];
    var a := AbsorbHeader(v, m.hdr);
    ViewOkParts(m.dst, v);
    AbsorbViewOk(m.dst, v, m.hdr);
    ViewOkParts(m.dst, a);
    if Grants(a, m.hdr, c) {
      GrantAtRequestEpoch(v, m.hdr, c);
      GrantFacts(a, m.hdr, c);
      VoteStep(s, m.dst, RecordVote(a, m.hdr, c), AckFor(a, m.hdr.sender));
    } else {
      NeutralMove(s, m.dst, a, {});
    }
  }

  lemma DeliverAckVoting(s: Net, m: Msg, c: Clock)
    requires EpochInv(s) && VotingInv(s) && Up(s, m.dst) && MsgOk(m) && m.body.AuthAck?
    requires VoteOf(m) in s.votes && VoteOf(m) !in s.tally[m.dst]
    requires forall n :: n in s.wire && n.body.AuthAck? ==> VoteOf(n) != VoteOf(m)
    ensures VotingInv(DeliverTo(s, m, c))
  {
    hide Known, ProcessPing, PingReplies, ProcessUpdate, AbsorbHeader, Grants, RecordVote, Counts, BuildHeader, ViewOk,
      AcksOk, RequestsOk, TallyOk, WinsOk;
    var v := s.views[m.dst];
    var a := AbsorbHeader(v, m.hdr);
    AbsorbViewOk(m.dst, v, m.hdr);
    CountViewOk(m.dst, a);
    if Counts(a, m.hdr) {
      CountedAtElectionEpoch(s, m);
      AckStep(s, m, a.(authCount := a.authCount + 1));
    } else {
      NeutralMove(s, m.dst, a, {});
    }
  }

  lemma BroadcastNeutral(v: View, h: Header)
    ensures Neutral(Broadcast(v, h, Ping(false)))
  {
  }

  lemma CronVoting(s: Net, i: Id, c: Clock)
    requires EpochInv(s) && VotingInv(s) && Up(s, i)
    ensures VotingInv(CronAt(s, i, c))
  {
    hide Known, ViewOk, Broadcast, BuildHeader, VotingInv, ServesSlots, RaiseConfigEpoch, ReplaceMaster;
    var v := s.views[i];
    var w := HandleFailover(v, c);
    CronViewOk(i, v, c);
    ViewOkParts(i, v);
    BroadcastNeutral(w, BuildHeader(w));
    match FailoverBranch(v, c)
    case Reset => ResetStep(s, i, w);
    case Ask =>
      RequestsFromCron(w, v.manualEnd);
      AskStep(s, i, w, Broadcast(w, BuildHeader(w).(forceAck := v.manualEnd), AuthRequest));
    case Win =>
      RaiseFacts(v);
      WinStep(s, i, w, Broadcast(w, BuildHeader(w), Ping(false)));
    case _ => NeutralMove(s, i, w, {});
  }

  lemma RaiseFacts(v: View)
    requires Known(v)
    ensures Known(RaiseConfigEpoch(v)) && KeepsElection(v, RaiseConfigEpoch(v))
  {
  }

  lemma RequestsFromCron(w: View, force: bool)
    requires Known(w)
    ensures forall m :: m in Broadcast(w, BuildHeader(w).(forceAck := force), AuthRequest) ==>
      m.body.AuthRequest? && m.hdr.sender == w.myself && m.hdr.currentEpoch == w.currentEpoch
  {
  }

  /** An ACK taken off the wire stands for a vote no other ACK stands for and that was not counted. */
  lemma TakenAck(s: Net, m: Msg)
    requires AcksOk(s) && m in s.wire && m.body.AuthAck?
    ensures VoteOf(m) in s.votes && m.dst in s.tally && VoteOf(m) !in s.tally[m.dst]
    ensures forall n :: n in s.wire - multiset{m} && n.body.AuthAck? ==> VoteOf(n) != VoteOf(m)
  {
  }

  lemma DeliverVoting(s: Net, m: Msg, c: Clock)
    requires ElectionInv(s) && m in s.wire && Up(s, m.dst)
    ensures VotingInv(Apply(s, Deliver(m, c)))
  {
    hide DeliverTo, CronAt, RunCommand, Broadcast, BuildHeader, Known, ViewOk, TallyOk, MsgOk, AcksOk, VotesOk, WinsOk;
    var t := s.(wire := s.wire - multiset{m});
    DroppedMessage(s, m);
    assert EpochInv(t);
    match m.body
    case Ping(_) => DeliverNeutral(t, m, c);
    case Update(_, _, _) => DeliverNeutral(t, m, c);
    case AuthRequest => DeliverRequestVoting(t, m, c);
    case AuthAck =>
      TakenAck(s, m);
      DeliverAckVoting(t, m, c);
  }

  lemma SendVoting(s: Net, i: Id, to: Id, wantsPong: bool)
    requires ElectionInv(s) && Up(s, i) && to != i
    ensures VotingInv(Apply(s, SendPing(i, to, wantsPong)))
  {
    hide DeliverTo, CronAt, RunCommand, Broadcast, BuildHeader, Known, VotingInv, EpochInv;
    NeutralMove(s, i, s.views[i], {Msg(to, BuildHeader(s.views[i]), Ping(wantsPong))});
  }

  lemma RunVoting(s: Net, i: Id, cmd: Command)
    requires ElectionInv(s) && Up(s, i)
    ensures VotingInv(Apply(s, Run(i, cmd)))
  {
    hide DeliverTo, CronAt, RunCommand, Broadcast, BuildHeader, Known, VotingInv, EpochInv;
    var w := RunCommand(s.views[i], cmd);
    BroadcastNeutral(w, BuildHeader(w));
    NeutralMove(s, i, w, Broadcast(w, BuildHeader(w), Ping(false)));
    NeutralMove(s, i, w, {});
  }

  lemma StepKeepsElectionInv(s: Net, e: Event)
    requires ElectionInv(s)
    ensures ElectionInv(Apply(s, e))
  {
    hide DeliverTo, CronAt, RunCommand, Broadcast, BuildHeader, Known, VotingInv, EpochInv;
    StepKeepsEpochInv(s, e);
    match e
    case Deliver(m, c) => if m in s.wire && Up(s, m.dst) { DeliverVoting(s, m, c); }
    case Lose(m) => DroppedMessage(s, m);
    case SendPing(i, to, wantsPong) => if Up(s, i) && to != i { SendVoting(s, i, to, wantsPong); }
    case Cron(i, c) => if Up(s, i) { CronVoting(s, i, c); }
    case Run(i, cmd) => if Up(s, i) { RunVoting(s, i, cmd); }
  }

  lemma {:induction false} RunKeepsElectionInv(s: Net, es: seq<Event>)
    requires ElectionInv(s)
    ensures ElectionInv(After(s, es))
    decreases |es|
  {
    hide ElectionInv, Apply;
    if es != [] {
      RunKeepsElectionInv(s, es[..|es| - 1]);
      StepKeepsElectionInv(After(s, es[..|es| - 1]), es[|es| - 1]);
    }
  }

  // ----- At most one winner per epoch

  function Voters(tally: set<Vote>): set<Id> { set x | x in tally :: x.voter }

  /** Every vote behind the win was cast in the epoch of the win. */
  predicate Fresh(w: WinRecord) { forall x :: x in w.tally ==> x.epoch == w.epoch }

  lemma {:induction false} VotersCount(tally: set<Vote>)
    requires forall x, y :: x in tally && y in tally && x.voter == y.voter ==> x == y
    ensures |Voters(tally)| == |tally|
    decreases tally
  {
    if tally != {} {
      var x :| x in tally;
      VotersCount(tally - {x});
      assert Voters(tally) == Voters(tally - {x}) + {x.voter};
      assert x.voter !in Voters(tally - {x});
    }
  }

  lemma UnionBound<T>(a: set<T>, b: set<T>, u: set<T>)
    requires a <= u && b <= u && a !! b
    ensures |a| + |b| <= |u|
  {
    assert |a + b| == |a| + |b|;
    assert u == (a + b) + (u - (a + b));
    assert |u| == |a + b| + |u - (a + b)|;
  }

  /** Two quorums of the same epoch share a master, and it voted once. */
  lemma OneWinner(s: Net, w1: WinRecord, w2: WinRecord, masters: set<Id>)
    requires VotesOk(s) && WinsOk(s) && w1 in s.wins && w2 in s.wins
    requires w1.epoch == w2.epoch && Fresh(w1) && Fresh(w2)
    requires Voters(w1.tally) <= masters && Voters(w2.tally) <= masters
    requires |masters| <= w1.size && |masters| <= w2.size
    ensures w1.candidate == w2.candidate
  {
    VotersCount(w1.tally);
    VotersCount(w2.tally);
    if Voters(w1.tally) !! Voters(w2.tally) {
      UnionBound(Voters(w1.tally), Voters(w2.tally), masters);
      assert false;
    } else {
      var n :| n in Voters(w1.tally) && n in Voters(w2.tally);
      var x :| x in w1.tally && x.voter == n;
      var y :| y in w2.tally && y.voter == n;
      assert x == y;
    }
  }

  /** A network nobody has voted in yet; any epochs, any tables, any packets but votes in flight. */
  ghost predicate Quiet(s: Net) {
    && EpochInv(s) && s.votes == {} && s.wins == {}
    && (forall m :: m in s.wire ==> !m.body.AuthAck? && !m.body.AuthRequest?)
    && (forall c :: c in s.views ==> s.tally[c] == {} && s.views[c].authCount == 0 && !s.views[c].authSent)
  }

  lemma QuietStart(s: Net)
    requires Quiet(s)
    ensures ElectionInv(s)
  {
    hide ViewOk, MsgOk;
    forall c | c in s.views
      ensures TallyFits(c, s.tally[c], s.views[c].authCount, s.views[c].authEpoch, s.votes)
    {
    }
  }

  /** Election safety: winners of one epoch whose quorums were drawn from one set of voting masters are one node. */
  lemma ElectionSafety(s: Net, es: seq<Event>, w1: WinRecord, w2: WinRecord, masters: set<Id>)
    requires Quiet(s) && w1 in After(s, es).wins && w2 in After(s, es).wins
    requires w1.epoch == w2.epoch && Fresh(w1) && Fresh(w2)
    requires Voters(w1.tally) <= masters && Voters(w2.tally) <= masters
    requires |masters| <= w1.size && |masters| <= w2.size
    ensures w1.candidate == w2.candidate
  {
    QuietStart(s);
    RunKeepsElectionInv(s, es);
    OneWinner(After(s, es), w1, w2, masters);
  }

  // ----- Which ACKs are counted for the wrong election

  /** The tally of a node that has asked for votes is all from that election; before asking it is empty. */
  ghost predicate FreshTallies(s: Net) {
    && (forall c :: c in s.views && c in s.tally ==>
          if s.views[c].authSent then forall x :: x in s.tally[c] ==> x.epoch == s.views[c].authEpoch
          else s.tally[c] == {})
    && (forall w :: w in s.wins ==> Fresh(w))
  }

  /** Event e makes a node count an ACK. */
  ghost predicate CountsAck(s: Net, e: Event) {
    && e.Deliver? && e.msg in s.wire && e.msg.body.AuthAck? && Up(s, e.msg.dst)
    && Counts(AbsorbHeader(s.views[e.msg.dst], e.msg.hdr), e.msg.hdr)
  }

  /** No ACK is counted by a node that has not asked for votes since its last reset. */
  ghost predicate NoStaleAck(s: Net, e: Event) {
    CountsAck(s, e) ==> s.views[e.msg.dst].authSent
  }

  lemma NeutralFresh(s: Net, i: Id, w: View, out: set<Msg>)
    requires FreshTallies(s) && i in s.views && Known(w) && KeepsElection(s.views[i], w)
    ensures FreshTallies(Move(s, i, w, out))
  {
    hide Known;
  }

  lemma CountFresh(s: Net, m: Msg, w: View)
    requires FreshTallies(s) && m.dst in s.views && m.dst in s.tally && Known(w)
    requires w.authEpoch == s.views[m.dst].authEpoch == m.hdr.currentEpoch && w.authSent == s.views[m.dst].authSent
    ensures FreshTallies(Move(s, m.dst, w, {}).(tally := s.tally[m.dst := s.tally[m.dst] + {VoteOf(m)}]))
       <==> s.views[m.dst].authSent
  {
    hide Known;
    var t := Move(s, m.dst, w, {}).(tally := s.tally[m.dst := s.tally[m.dst] + {VoteOf(m)}]);
    assert VoteOf(m) in t.tally[m.dst];
  }

  lemma DeliverFresh(s: Net, m: Msg, c: Clock)
    requires FreshTallies(s) && Up(s, m.dst) && !m.body.AuthAck?
    ensures FreshTallies(DeliverTo(s, m, c))
  {
    hide Known, ProcessPing, PingReplies, ProcessUpdate, AbsorbHeader, Grants, Counts, BuildHeader, FreshTallies;
    var v := s.views[m.dst];
    match m.body
    case Ping(wantsPong) => NeutralFresh(s, m.dst, ProcessPing(v, m.hdr), PingReplies(v, m.hdr, wantsPong));
    case Update(about, epoch, claimed) => NeutralFresh(s, m.dst, ProcessUpdate(v, m.hdr, about, epoch, claimed), {});
    case AuthRequest =>
      var a := AbsorbHeader(v, m.hdr);
      if Grants(a, m.hdr, c) {
        VoteFresh(s, m.dst, a, m.hdr, c);
      } else {
        NeutralFresh(s, m.dst, a, {});
      }
  }

  lemma VoteFresh(s: Net, i: Id, a: View, h: Header, c: Clock)
    requires FreshTallies(s) && i in s.views && Known(a) && KeepsElection(s.views[i], a) && Grants(a, h, c)
    ensures var ack := AckFor(a, h.sender);
      FreshTallies(Move(s, i, RecordVote(a, h, c), {ack}).(votes := s.votes + {VoteOf(ack)}))
  {
    assert Known(RecordVote(a, h, c));
  }

  lemma AckFresh(s: Net, m: Msg, c: Clock)
    requires VotesOk(s) && VoteOf(m) in s.votes && FreshTallies(s) && Up(s, m.dst) && m.body.AuthAck?
    ensures !Counts(AbsorbHeader(s.views[m.dst], m.hdr), m.hdr) ==> FreshTallies(DeliverTo(s, m, c))
    ensures Counts(AbsorbHeader(s.views[m.dst], m.hdr), m.hdr) ==>
      (FreshTallies(DeliverTo(s, m, c)) <==> s.views[m.dst].authSent)
  {
    hide Known, ProcessPing, PingReplies, ProcessUpdate, AbsorbHeader, Grants, Counts, BuildHeader, FreshTallies;
    var v := s.views[m.dst];
    var a := AbsorbHeader(v, m.hdr);
    if Counts(a, m.hdr) {
      CountedAtElectionEpoch(s, m);
      KnownCount(a);
      CountFresh(s, m, a.(authCount := a.authCount + 1));
    } else {
      NeutralFresh(s, m.dst, a, {});
    }
  }

  lemma CronFresh(s: Net, i: Id, c: Clock)
    requires FreshTallies(s) && TallyOk(s) && Up(s, i)
    requires FailoverBranch(s.views[i], c).Ask? ==> s.tally[i] == {}
    ensures FreshTallies(CronAt(s, i, c))
  {
    hide Known, Broadcast, BuildHeader, ServesSlots, RaiseConfigEpoch, ReplaceMaster, TallyOk;
    var v := s.views[i];
    if FailoverBranch(v, c).Win? { RaiseFacts(v); }
  }

  lemma AskedEmpty(s: Net, i: Id, c: Clock)
    requires FreshTallies(s) && Up(s, i) && FailoverBranch(s.views[i], c).Ask?
    ensures s.tally[i] == {}
  {
  }

  /** Exactly the ACKs counted before the node asked for votes spoil a tally. */
  lemma StaleAckExactly(s: Net, e: Event)
    requires ElectionInv(s) && FreshTallies(s)
    ensures FreshTallies(Apply(s, e)) <==> NoStaleAck(s, e)
  {
    hide DeliverTo, CronAt, RunCommand, Broadcast, BuildHeader, Known, EpochInv, AbsorbHeader, Counts, TallyOk,
      WinsOk, RequestsOk;
    match e
    case Deliver(m, c) =>
      if m in s.wire && Up(s, m.dst) {
        var t := s.(wire := s.wire - multiset{m});
        if m.body.AuthAck? { AckFresh(t, m, c); } else { DeliverFresh(t, m, c); }
      }
    case Lose(m) =>
    case SendPing(i, to, wantsPong) =>
      if Up(s, i) && to != i { NeutralFresh(s, i, s.views[i], {Msg(to, BuildHeader(s.views[i]), Ping(wantsPong))}); }
    case Cron(i, c) =>
      if Up(s, i) {
        if FailoverBranch(s.views[i], c).Ask? { AskedEmpty(s, i, c); }
        CronFresh(s, i, c);
      }
    case Run(i, cmd) =>
      if Up(s, i) {
        var w := RunCommand(s.views[i], cmd);
        NeutralFresh(s, i, w, Broadcast(w, BuildHeader(w), Ping(false)));
        NeutralFresh(s, i, w, {});
      }
  }

  /** No stale ACK was counted anywhere in the run. */
  ghost predicate NoStaleAcks(s: Net, es: seq<Event>) {
    forall k :: 0 <= k < |es| ==> NoStaleAck(After(s, es[..k]), es[k])
  }

  lemma {:induction false} RunsKeepTalliesFresh(s: Net, es: seq<Event>)
    requires ElectionInv(s) && FreshTallies(s) && NoStaleAcks(s, es)
    ensures FreshTallies(After(s, es))
    decreases |es|
  {
    hide ElectionInv, FreshTallies, Apply, NoStaleAck;
    if es != [] {
      var init := es[..|es| - 1];
      assert forall k :: 0 <= k < |init| ==> init[..k] == es[..k];
      RunsKeepTalliesFresh(s, init);
      RunKeepsElectionInv(s, init);
      StaleAckExactly(After(s, init), es[|es| - 1]);
    }
  }

  /** With no stale ACK and one agreed set of voting masters, every epoch has at most one winner. */
  lemma OneWinnerPerEpoch(s: Net, es: seq<Event>, masters: set<Id>)
    requires Quiet(s) && NoStaleAcks(s, es)
    requires forall w :: w in After(s, es).wins ==> Voters(w.tally) <= masters && w.size == |masters|
    ensures forall w1, w2 :: w1 in After(s, es).wins && w2 in After(s, es).wins && w1.epoch == w2.epoch ==>
      w1.candidate == w2.candidate
  {
    hide EpochInv, After, NoStaleAcks;
    QuietStart(s);
    RunsKeepTalliesFresh(s, es);
    forall w1, w2 | w1 in After(s, es).wins && w2 in After(s, es).wins && w1.epoch == w2.epoch
      ensures w1.candidate == w2.candidate
    {
      ElectionSafety(s, es, w1, w2, masters);
    }
  }
}
