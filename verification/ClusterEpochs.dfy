/**
 Epochs over every run: a configEpoch a node records or sends is never above the currentEpoch held or
 sent with it, and what that means for epoch bumps.
 */
module ClusterEpochs {
  import opened ClusterView
  import opened ClusterNet

  // ----- One handler at a time

  predicate HeaderBounded(h: Header) { h.configEpoch <= h.currentEpoch }

  predicate MsgBounded(m: Msg) {
    HeaderBounded(m.hdr) && (m.body.Update? ==> m.body.epoch <= m.hdr.currentEpoch)
  }

  lemma AbsorbKeepsBound(v: View, h: Header)
    requires EpochsBounded(v) && HeaderBounded(h)
    ensures EpochsBounded(AbsorbHeader(v, h))
    ensures h.sender in v.nodes ==> h.currentEpoch <= AbsorbHeader(v, h).currentEpoch
  {
  }

  lemma PingKeepsBound(v: View, h: Header)
    requires Known(v) && EpochsBounded(v) && HeaderBounded(h)
    ensures EpochsBounded(ProcessPing(v, h))
  {
    if h.sender in v.nodes {
      var a := AbsorbHeader(v, h);
      AbsorbKeepsBound(v, h);
      var w := ApplyClaim(a, h);
      assert EpochsBounded(w);
    }
  }

  lemma UpdateKeepsBound(v: View, h: Header, about: Id, epoch: nat, claimed: set<nat>)
    requires Known(v) && EpochsBounded(v) && HeaderBounded(h) && epoch <= h.currentEpoch
    ensures EpochsBounded(ProcessUpdate(v, h, about, epoch, claimed))
  {
    AbsorbKeepsBound(v, h);
    var a := AbsorbHeader(v, h);
    if h.sender in a.nodes && about in a.nodes && a.nodes[about].configEpoch < epoch {
      var b := SetNodeAsMaster(a, about);
      var d := b.(nodes := b.nodes[about := b.nodes[about].(configEpoch := epoch)]);
      assert EpochsBounded(d) && Known(d);
      assert EpochsBounded(UpdateSlots(d, about, epoch, claimed));
    }
  }

  lemma CommandKeepsBound(v: View, cmd: Command)
    requires Known(v) && EpochsBounded(v)
    ensures EpochsBounded(RunCommand(v, cmd))
  {
    hide DelNode, Known;
    if (cmd.Forget? || cmd.Expire?) && cmd.node != v.myself { DelNodeKeepsBound(v, cmd.node); }
  }

  lemma DelNodeKeepsBound(v: View, n: Id)
    requires Known(v) && EpochsBounded(v) && n != v.myself
    ensures Known(DelNode(v, n)) && EpochsBounded(DelNode(v, n))
  {
    hide Known;
  }

  /** clusterGetMaxEpoch never finds an epoch above currentEpoch, so a bump gives an epoch nobody is known to use. */
  lemma BumpIsFresh(v: View)
    requires Known(v) && EpochsBounded(v)
    ensures IsMaxEpoch(v, v.currentEpoch)
    ensures MustBump(v) <==> Me(v).configEpoch == 0 || Me(v).configEpoch != v.currentEpoch
    ensures MustBump(v) ==> forall n :: n in v.nodes ==> v.nodes[n].configEpoch < Me(BumpEpoch(v)).configEpoch
    ensures !MustBump(v) ==> forall n :: n in v.nodes ==> v.nodes[n].configEpoch <= Me(v).configEpoch
  {
  }

  lemma KnownCount(v: View)
    requires Known(v)
    ensures Known(v.(authCount := v.authCount + 1))
  {
  }

  // ----- Whole runs

  /** What holds of the view node i keeps. */
  ghost predicate ViewOk(i: Id, v: View) {
    && v.myself == i && Known(v) && EpochsBounded(v)
    && v.authEpoch <= v.currentEpoch && v.lastVoteEpoch <= v.currentEpoch
  }

  ghost predicate MsgOk(m: Msg) { MsgBounded(m) && m.hdr.sender != m.dst }

  ghost predicate EpochInv(s: Net) {
    && s.views.Keys == s.epochs.Keys == s.tally.Keys
    && (forall i :: i in s.views ==> ViewOk(i, s.views[i]))
    && (forall m :: m in s.wire ==> MsgOk(m) && m.hdr.sender in s.views)
  }

  lemma BuiltHeaderBounded(v: View)
    requires Known(v) && EpochsBounded(v)
    ensures HeaderBounded(BuildHeader(v)) && BuildHeader(v).sender == v.myself
  {
  }

  lemma MoveKeepsEpochInv(s: Net, i: Id, w: View, out: set<Msg>)
    requires EpochInv(s) && i in s.views
    requires ViewOk(i, w) && Known(w)
    requires forall m :: m in out ==> MsgOk(m) && m.hdr.sender == i
    ensures EpochInv(Move(s, i, w, out))
  {
    hide ViewOk, MsgOk, Known;
    var t := Move(s, i, w, out);
    assert t.views.Keys == s.views.Keys;
    forall m | m in t.wire
      ensures MsgOk(m) && m.hdr.sender in t.views
    {
      assert m in s.wire || m in out;
    }
  }

  lemma PingRepliesBounded(v: View, h: Header, wantsPong: bool)
    requires Known(v) && EpochsBounded(v) && HeaderBounded(h) && h.sender != v.myself
    ensures forall m :: m in PingReplies(v, h, wantsPong) ==>
      MsgOk(m) && m.hdr.sender == v.myself && m.dst == h.sender && (m.body.Ping? || m.body.Update?)
  {
    var a := AbsorbHeader(v, h);
    AbsorbKeepsBound(v, h);
    BuiltHeaderBounded(a);
    if h.sender in a.nodes {
      var w := ApplyClaim(a, h);
      assert EpochsBounded(w);
      BuiltHeaderBounded(w);
      StaleUpdatesBounded(w, h);
    }
  }

  lemma StaleUpdatesBounded(w: View, h: Header)
    requires Known(w) && EpochsBounded(w)
    ensures forall m :: m in StaleUpdates(w, h) ==>
      MsgBounded(m) && m.hdr.sender == w.myself && m.dst == h.sender && m.body.Update? && m.body.about != m.dst
  {
    BuiltHeaderBounded(w);
  }

  lemma ViewOkParts(i: Id, v: View)
    requires ViewOk(i, v)
    ensures v.myself == i && Known(v) && EpochsBounded(v)
    ensures v.authEpoch <= v.currentEpoch && v.lastVoteEpoch <= v.currentEpoch
  {
    hide Known, EpochsBounded;
  }

  lemma KeptViewOk(i: Id, v: View, w: View)
    requires ViewOk(i, v) && Known(w) && KeepsElection(v, w) && EpochsBounded(w)
    ensures ViewOk(i, w)
  {
    hide Known, EpochsBounded;
  }

  lemma AbsorbViewOk(i: Id, v: View, h: Header)
    requires ViewOk(i, v) && HeaderBounded(h)
    ensures ViewOk(i, AbsorbHeader(v, h))
  {
    ViewOkParts(i, v);
    AbsorbKeepsBound(v, h);
    KeptViewOk(i, v, AbsorbHeader(v, h));
    hide *;
  }

  lemma PingViewOk(i: Id, v: View, h: Header)
    requires ViewOk(i, v) && Known(v) && HeaderBounded(h)
    ensures ViewOk(i, ProcessPing(v, h))
  {
    hide *;
    ViewOkParts(i, v);
    PingKeepsBound(v, h);
    KeptViewOk(i, v, ProcessPing(v, h));
  }

  lemma UpdateViewOk(i: Id, v: View, h: Header, about: Id, epoch: nat, claimed: set<nat>)
    requires ViewOk(i, v) && Known(v) && HeaderBounded(h) && epoch <= h.currentEpoch
    ensures ViewOk(i, ProcessUpdate(v, h, about, epoch, claimed))
  {
    hide *;
    ViewOkParts(i, v);
    UpdateKeepsBound(v, h, about, epoch, claimed);
    KeptViewOk(i, v, ProcessUpdate(v, h, about, epoch, claimed));
  }

  lemma VoteViewOk(i: Id, v: View, h: Header, c: Clock)
    requires ViewOk(i, v) && Known(v) && Grants(v, h, c)
    ensures Known(RecordVote(v, h, c)) && ViewOk(i, RecordVote(v, h, c))
  {
  }

  lemma CountViewOk(i: Id, v: View)
    requires ViewOk(i, v)
    ensures Known(v.(authCount := v.authCount + 1)) && ViewOk(i, v.(authCount := v.authCount + 1))
  {
  }

  lemma RaiseViewOk(i: Id, v: View)
    requires ViewOk(i, v) && Known(v)
    ensures Known(RaiseConfigEpoch(v)) && ViewOk(i, RaiseConfigEpoch(v))
  {
  }

  lemma ReplaceViewOk(i: Id, v: View)
    requires ViewOk(i, v) && Known(v)
    ensures ViewOk(i, ReplaceMaster(v))
  {
    ViewOkParts(i, v);
    var w := ReplaceMaster(v);
    assert EpochsBounded(w);
    KeptViewOk(i, v, w);
  }

  /** Only election bookkeeping or currentEpoch moved. */
  lemma BookkeepingViewOk(i: Id, v: View, w: View)
    requires ViewOk(i, v)
    requires w.myself == v.myself && w.nodes == v.nodes && w.owner == v.owner
    requires v.currentEpoch <= w.currentEpoch
    requires w.authEpoch <= w.currentEpoch && w.lastVoteEpoch <= w.currentEpoch
    ensures Known(w) && ViewOk(i, w)
  {
  }

  lemma WinViewOk(i: Id, v: View, c: Clock)
    requires ViewOk(i, v) && Known(v) && FailoverBranch(v, c).Win?
    ensures ViewOk(i, HandleFailover(v, c))
  {
    hide ServesSlots, ReplaceMaster, RaiseConfigEpoch, FailoverBranch, ViewOk, Known, EpochsBounded;
    RaiseViewOk(i, v);
    ReplaceViewOk(i, RaiseConfigEpoch(v));
  }

  lemma CronViewOk(i: Id, v: View, c: Clock)
    requires ViewOk(i, v) && Known(v)
    ensures Known(HandleFailover(v, c)) && ViewOk(i, HandleFailover(v, c))
  {
    hide *;
    ViewOkParts(i, v);
    if FailoverBranch(v, c).Win? {
      WinViewOk(i, v, c);
      ViewOkParts(i, HandleFailover(v, c));
    } else {
      BookkeepingViewOk(i, v, HandleFailover(v, c));
    }
  }

  lemma CommandViewOk(i: Id, v: View, cmd: Command)
    requires ViewOk(i, v) && Known(v)
    ensures ViewOk(i, RunCommand(v, cmd))
  {
    hide *;
    ViewOkParts(i, v);
    CommandKeepsBound(v, cmd);
    KeptViewOk(i, v, RunCommand(v, cmd));
  }

  lemma BuiltMsgOk(i: Id, v: View, to: Id, body: Body, force: bool)
    requires ViewOk(i, v) && Known(v) && to != i && !body.Update?
    ensures MsgOk(Msg(to, BuildHeader(v).(forceAck := force), body))
    ensures BuildHeader(v).sender == i && !BuildHeader(v).forceAck
  {
  }

  lemma BroadcastOk(i: Id, v: View, force: bool, body: Body)
    requires ViewOk(i, v) && Known(v) && !body.Update?
    ensures forall m :: m in Broadcast(v, BuildHeader(v).(forceAck := force), body) ==> MsgOk(m) && m.hdr.sender == i
    ensures !BuildHeader(v).forceAck
  {
    ViewOkParts(i, v);
    BuiltHeaderBounded(v);
  }

  // ----- Whole runs: one lemma per event

  lemma DeliverPing(s: Net, m: Msg, c: Clock)
    requires EpochInv(s) && Up(s, m.dst) && MsgOk(m) && m.body.Ping?
    ensures EpochInv(DeliverTo(s, m, c))
  {
    hide ViewOk, Known, ProcessPing, PingReplies, ProcessUpdate, AbsorbHeader, Grants, RecordVote, Counts, BuildHeader,
      ProcessAuthAck, EpochsBounded;
    var v := s.views[m.dst];
    ViewOkParts(m.dst, v);
    PingViewOk(m.dst, v, m.hdr);
    PingRepliesBounded(v, m.hdr, m.body.wantsPong);
    MoveKeepsEpochInv(s, m.dst, ProcessPing(v, m.hdr), PingReplies(v, m.hdr, m.body.wantsPong));
  }

  lemma DeliverUpdate(s: Net, m: Msg, c: Clock)
    requires EpochInv(s) && Up(s, m.dst) && MsgOk(m) && m.body.Update?
    ensures EpochInv(DeliverTo(s, m, c))
  {
    hide ViewOk, Known, ProcessPing, PingReplies, ProcessUpdate, AbsorbHeader, Grants, RecordVote, Counts, BuildHeader,
      ProcessAuthAck;
    var v := s.views[m.dst];
    UpdateViewOk(m.dst, v, m.hdr, m.body.about, m.body.epoch, m.body.slots);
    MoveKeepsEpochInv(s, m.dst, ProcessUpdate(v, m.hdr, m.body.about, m.body.epoch, m.body.slots), {});
  }

  lemma DeliverRequest(s: Net, m: Msg, c: Clock)
    requires EpochInv(s) && Up(s, m.dst) && MsgOk(m) && m.body.AuthRequest?
    ensures EpochInv(DeliverTo(s, m, c))
  {
    hide ViewOk, Known, ProcessPing, PingReplies, ProcessUpdate, AbsorbHeader, Grants, RecordVote, Counts, BuildHeader,
      ProcessAuthAck;
    var v := s.views[m.dst];
    var a := AbsorbHeader(v, m.hdr);
    AbsorbViewOk(m.dst, v, m.hdr);
    if Grants(a, m.hdr, c) {
      VoteViewOk(m.dst, a, m.hdr, c);
      BuiltMsgOk(m.dst, a, m.hdr.sender, AuthAck, false);
      MoveKeepsEpochInv(s, m.dst, RecordVote(a, m.hdr, c), {AckFor(a, m.hdr.sender)});
    } else {
      MoveKeepsEpochInv(s, m.dst, a, {});
    }
  }

  lemma DeliverAck(s: Net, m: Msg, c: Clock)
    requires EpochInv(s) && Up(s, m.dst) && MsgOk(m) && m.body.AuthAck?
    ensures EpochInv(DeliverTo(s, m, c))
  {
    hide ViewOk, Known, ProcessPing, PingReplies, ProcessUpdate, AbsorbHeader, Grants, RecordVote, Counts, BuildHeader;
    var v := s.views[m.dst];
    var a := AbsorbHeader(v, m.hdr);
    AbsorbViewOk(m.dst, v, m.hdr);
    CountViewOk(m.dst, a);
    MoveKeepsEpochInv(s, m.dst, a.(authCount := a.authCount + 1), {});
    MoveKeepsEpochInv(s, m.dst, a, {});
  }

  lemma CronKeepsEpochInv(s: Net, i: Id, c: Clock)
    requires EpochInv(s) && Up(s, i)
    ensures EpochInv(CronAt(s, i, c))
  {
    hide ViewOk, MsgOk, Known, HandleFailover, Broadcast, FailoverBranch, BuildHeader;
    var v := s.views[i];
    var w := HandleFailover(v, c);
    CronViewOk(i, v, c);
    ViewOkParts(i, w);
    BroadcastOk(i, w, v.manualEnd, AuthRequest);
    BroadcastOk(i, w, false, Ping(false));
    MoveKeepsEpochInv(s, i, w, {});
    MoveKeepsEpochInv(s, i, w, Broadcast(w, BuildHeader(w).(forceAck := v.manualEnd), AuthRequest));
    MoveKeepsEpochInv(s, i, w, Broadcast(w, BuildHeader(w).(forceAck := false), Ping(false)));
  }

  lemma RunKeepsEpochInv(s: Net, i: Id, cmd: Command)
    requires EpochInv(s) && Up(s, i)
    ensures EpochInv(Apply(s, Run(i, cmd)))
  {
    hide ViewOk, MsgOk, Known, RunCommand, Broadcast, BuildHeader, DeliverTo, CronAt;
    var v := s.views[i];
    var w := RunCommand(v, cmd);
    CommandViewOk(i, v, cmd);
    BroadcastOk(i, w, false, Ping(false));
    MoveKeepsEpochInv(s, i, w, {});
    MoveKeepsEpochInv(s, i, w, Broadcast(w, BuildHeader(w).(forceAck := false), Ping(false)));
  }

  lemma SendKeepsEpochInv(s: Net, i: Id, to: Id, wantsPong: bool)
    requires EpochInv(s) && Up(s, i) && to != i
    ensures EpochInv(Apply(s, SendPing(i, to, wantsPong)))
  {
    hide ViewOk, MsgOk, Known, RunCommand, Broadcast, BuildHeader, DeliverTo, CronAt;
    var v := s.views[i];
    BuiltMsgOk(i, v, to, Ping(wantsPong), false);
    MoveKeepsEpochInv(s, i, v, {Msg(to, BuildHeader(v).(forceAck := false), Ping(wantsPong))});
  }

  lemma DeliverKeepsEpochInv(s: Net, m: Msg, c: Clock)
    requires EpochInv(s) && m in s.wire && Up(s, m.dst)
    ensures EpochInv(Apply(s, Deliver(m, c)))
  {
    hide ViewOk, MsgOk, DeliverTo, CronAt, RunCommand, Broadcast, BuildHeader, Known;
    var t := s.(wire := s.wire - multiset{m});
    match m.body
    case Ping(_) => DeliverPing(t, m, c);
    case Update(_, _, _) => DeliverUpdate(t, m, c);
    case AuthRequest => DeliverRequest(t, m, c);
    case AuthAck => DeliverAck(t, m, c);
  }

  lemma StepKeepsEpochInv(s: Net, e: Event)
    requires EpochInv(s)
    ensures EpochInv(Apply(s, e))
  {
    hide ViewOk, MsgOk, DeliverTo, CronAt, RunCommand, Broadcast, BuildHeader, Known;
    match e
    case Deliver(m, c) => if m in s.wire && Up(s, m.dst) { DeliverKeepsEpochInv(s, m, c); }
    case Lose(m) =>
    case SendPing(i, to, wantsPong) => if Up(s, i) && to != i { SendKeepsEpochInv(s, i, to, wantsPong); }
    case Cron(i, c) => if Up(s, i) { CronKeepsEpochInv(s, i, c); }
    case Run(i, cmd) => if Up(s, i) { RunKeepsEpochInv(s, i, cmd); }
  }

  /** Every run keeps every configEpoch, recorded or sent, at or below the currentEpoch beside it. */
  lemma {:induction false} EpochsStayBounded(s: Net, es: seq<Event>)
    requires EpochInv(s)
    ensures EpochInv(After(s, es))
    decreases |es|
  {
    if es != [] {
      EpochsStayBounded(s, es[..|es| - 1]);
      StepKeepsEpochInv(After(s, es[..|es| - 1]), es[|es| - 1]);
    }
  }
}
