/**
 What any event of the network does to epochs, in terms of the one node that acts: where its records
 come from, what its packets announce, and when its own configEpoch moves.
 */
module ClusterSteps {
  import opened Optional
  import opened ClusterView
  import opened ClusterNet
  import opened ClusterEpochs

  function OwnEpoch(v: View): nat {
    if v.myself in v.nodes then v.nodes[v.myself].configEpoch else 0
  }

  // ----- What one handler does to epochs

  /** Recorded epochs of w come from v, or from the header for its sender. */
  predicate RecordsFrom(v: View, w: View, h: Header) {
    forall n :: n in w.nodes && n != v.myself ==>
      n in v.nodes && (w.nodes[n].configEpoch == v.nodes[n].configEpoch ||
                       (n == h.sender && w.nodes[n].configEpoch == h.configEpoch))
  }

  lemma AbsorbRecords(v: View, h: Header)
    requires Known(v) && h.sender != v.myself
    ensures OwnEpoch(AbsorbHeader(v, h)) == OwnEpoch(v) && RecordsFrom(v, AbsorbHeader(v, h), h)
  {
  }

  lemma ClaimRecords(v: View, h: Header)
    requires Known(v) && h.sender in v.nodes && h.sender != v.myself
    ensures OwnEpoch(ApplyClaim(v, h)) == OwnEpoch(v)
    ensures forall n :: n in v.nodes ==> ApplyClaim(v, h).nodes[n].configEpoch == v.nodes[n].configEpoch
    ensures h.slaveof.Some? ==> !ApplyClaim(v, h).nodes[h.sender].master
  {
    hide UpdateSlots, DirtySlots, Demote;
    var u := UpdateRole(v, h);
    assert SameEpochs(v, u);
  }

  /** A PING moves the receiver's own epoch exactly to settle a collision with a larger name at the announced epoch. */
  lemma PingRecords(v: View, h: Header)
    requires Known(v) && EpochsBounded(v) && h.sender != v.myself
    ensures RecordsFrom(v, ProcessPing(v, h), h)
    ensures OwnEpoch(ProcessPing(v, h)) != OwnEpoch(v) ==>
      && OwnEpoch(v) == h.configEpoch && h.slaveof.None? && v.myself < h.sender
      && OwnEpoch(v) < OwnEpoch(ProcessPing(v, h))
  {
    hide ApplyClaim, AbsorbHeader, EpochsBounded;
    if h.sender in v.nodes {
      var a := AbsorbHeader(v, h);
      AbsorbRecords(v, h);
      ClaimRecords(a, h);
      OwnBounded(v);
    }
  }

  lemma OwnBounded(v: View)
    requires Known(v) && EpochsBounded(v)
    ensures OwnEpoch(v) <= v.currentEpoch
  {
  }

  predicate UpdateRecordsFrom(v: View, w: View, h: Header, about: Id, epoch: nat) {
    forall n :: n in w.nodes && n != v.myself ==>
      n in v.nodes && (w.nodes[n].configEpoch == v.nodes[n].configEpoch ||
                       (n == h.sender && w.nodes[n].configEpoch == h.configEpoch) ||
                       (n == about && w.nodes[n].configEpoch == epoch))
  }

  lemma UpdateRecords(v: View, h: Header, about: Id, epoch: nat, claimed: set<nat>)
    requires Known(v) && h.sender != v.myself && about != v.myself
    ensures OwnEpoch(ProcessUpdate(v, h, about, epoch, claimed)) == OwnEpoch(v)
    ensures UpdateRecordsFrom(v, ProcessUpdate(v, h, about, epoch, claimed), h, about, epoch)
  {
    hide UpdateSlots, Known, AbsorbHeader, SetNodeAsMaster;
    AbsorbRecords(v, h);
    var a := AbsorbHeader(v, h);
    if h.sender in a.nodes && about in a.nodes && a.nodes[about].configEpoch < epoch {
      var b := SetNodeAsMaster(a, about);
      KnownEpoch(b, about, epoch);
    }
  }

  lemma KnownEpoch(b: View, about: Id, epoch: nat)
    requires Known(b) && about in b.nodes
    ensures Known(b.(nodes := b.nodes[about := b.nodes[about].(configEpoch := epoch)]))
  {
  }

  /** Every epoch recorded for another node stays; the node's own may rise. */
  predicate OwnRises(v: View, w: View) {
    && OwnEpoch(v) <= OwnEpoch(w)
    && (forall n :: n in w.nodes && n in v.nodes && n != v.myself ==> w.nodes[n].configEpoch == v.nodes[n].configEpoch)
    && (forall n :: n in w.nodes && n !in v.nodes ==> w.nodes[n].configEpoch == 0)
  }

  lemma BumpRises(v: View)
    requires Known(v) && EpochsBounded(v)
    ensures OwnRises(v, BumpEpoch(v))
  {
    hide MustBump;
  }

  lemma EpochCommandRecords(v: View, cmd: Command)
    requires Known(v) && EpochsBounded(v) && IsEpochCommand(cmd)
    ensures OwnRises(v, RunCommand(v, cmd))
  {
    hide ServesSlots, BumpEpoch, ReplaceMaster;
    BumpRises(v);
    var b := BumpEpoch(v);
    assert SameEpochs(b, ReplaceMaster(b));
  }

  lemma PlainCommandRecords(v: View, cmd: Command)
    requires Known(v) && !IsEpochCommand(cmd)
    ensures OwnRises(v, RunCommand(v, cmd)) && OwnEpoch(RunCommand(v, cmd)) == OwnEpoch(v)
  {
    hide ServesSlots;
  }

  /** A command touches no recorded epoch but the node's own; a node met for the first time starts at 0. */
  lemma CommandRecords(v: View, cmd: Command)
    requires Known(v) && EpochsBounded(v)
    ensures OwnRises(v, RunCommand(v, cmd))
    ensures !IsEpochCommand(cmd) ==> OwnEpoch(RunCommand(v, cmd)) == OwnEpoch(v)
  {
    hide RunCommand, Known, EpochsBounded;
    if IsEpochCommand(cmd) { EpochCommandRecords(v, cmd); } else { PlainCommandRecords(v, cmd); }
  }

  // ----- What goes on the wire

  /** A header that names no master carries the sender's own epoch; an UPDATE is never about its receiver. */
  predicate Speaks(m: Msg, i: Id, own: nat) {
    && m.hdr.sender == i && (m.hdr.slaveof.None? ==> m.hdr.configEpoch == own)
    && (m.body.Update? ==> m.body.about != m.dst)
  }

  lemma BuiltHeaderSpeaks(v: View)
    requires Known(v)
    ensures BuildHeader(v).sender == v.myself
    ensures BuildHeader(v).slaveof.None? ==> BuildHeader(v).configEpoch == OwnEpoch(v)
  {
  }

  lemma RepliesSpeak(v: View, h: Header, wantsPong: bool)
    requires Known(v) && h.sender != v.myself
    ensures forall m :: m in PingReplies(v, h, wantsPong) ==> Speaks(m, v.myself, OwnEpoch(v))
  {
    hide ApplyClaim, DirtySlots, UpdateRole, IsFirstStale, BuildHeader;
    var a := AbsorbHeader(v, h);
    AbsorbRecords(v, h);
    BuiltHeaderSpeaks(a);
    if h.sender in a.nodes {
      var w := ApplyClaim(a, h);
      ClaimRecords(a, h);
      BuiltHeaderSpeaks(w);
      UpdatesAboutOthers(w, h);
    }
  }

  lemma UpdatesAboutOthers(w: View, h: Header)
    requires Known(w)
    ensures forall m :: m in StaleUpdates(w, h) ==> m.hdr == BuildHeader(w) && m.body.Update? && m.body.about != m.dst
  {
  }

  lemma BroadcastSpeaks(w: View, force: bool, body: Body)
    requires Known(w) && !body.Update?
    ensures forall m :: m in Broadcast(w, BuildHeader(w).(forceAck := force), body) ==> Speaks(m, w.myself, OwnEpoch(w))
  {
    BuiltHeaderSpeaks(w);
  }

  lemma VoteRecords(v: View, h: Header, c: Clock)
    requires Known(v) && Grants(v, h, c)
    ensures var w := RecordVote(v, h, c);
      && Known(w) && w.myself == v.myself && OwnEpoch(w) == OwnEpoch(v)
      && w.nodes.Keys == v.nodes.Keys && (forall n :: n in v.nodes ==> w.nodes[n].configEpoch == v.nodes[n].configEpoch)
  {
  }

  lemma MyselfKnown(v: View)
    requires Known(v)
    ensures v.myself in v.nodes
  {
  }

  /** The event gives no node a configEpoch except by collision repair. */
  ghost predicate OnlyRepairs(s: Net, e: Event) {
    match e
    case Run(_, cmd) => !IsEpochCommand(cmd)
    case Cron(i, c) => Up(s, i) ==> !FailoverBranch(s.views[i], c).Win?
    case _ => true
  }

  // ----- What any event does, in terms of the node that acts

  /** The epoch w records for n was already in v, is that of a first meeting, or came in message m. */
  predicate Sourced(v: View, w: View, n: Id, m: Option<Msg>)
    requires n in w.nodes
  {
    || (n in v.nodes && w.nodes[n].configEpoch == v.nodes[n].configEpoch)
    || w.nodes[n].configEpoch == 0
    || (m.Some? && m.value.hdr.sender == n && w.nodes[n].configEpoch == m.value.hdr.configEpoch)
    || (m.Some? && m.value.body.Update? && m.value.body.about == n && w.nodes[n].configEpoch == m.value.body.epoch)
  }

  /** What the UPDATEs a node sends report: its own epoch, or one it had recorded. */
  predicate Reports(v: View, m: Msg) {
    m.body.Update? ==> m.body.about in v.nodes && m.body.epoch == v.nodes[m.body.about].configEpoch
  }

  /** The acting node goes from v to w on message m and sends out. */
  ghost predicate Acts(v: View, w: View, m: Option<Msg>, out: set<Msg>) {
    && v.myself == w.myself && v.myself in v.nodes && w.myself in w.nodes
    && OwnEpoch(v) <= OwnEpoch(w)
    && (forall n :: n in w.nodes && n != v.myself ==> Sourced(v, w, n, m))
    && (forall x :: x in out ==> Speaks(x, v.myself, OwnEpoch(v)) || Speaks(x, v.myself, OwnEpoch(w)))
    && (forall x :: x in out ==> Reports(v, x))
    && (forall x :: x in out && w.nodes[w.myself].slaveof.None? && v.nodes[v.myself].slaveof.None? ==> x.hdr.slaveof.None?)
  }

  /** The node keeps its epoch, or leaves one that m announced for a larger name. */
  predicate Repairs(v: View, w: View, m: Option<Msg>) {
    OwnEpoch(w) != OwnEpoch(v) ==>
      && m.Some? && OwnEpoch(v) == m.value.hdr.configEpoch && m.value.hdr.slaveof.None?
      && v.myself < m.value.hdr.sender
  }

  lemma PingActs(v: View, m: Msg)
    requires Known(v) && EpochsBounded(v) && m.hdr.sender != v.myself && m.body.Ping?
    ensures Acts(v, ProcessPing(v, m.hdr), Some(m), PingReplies(v, m.hdr, m.body.wantsPong))
    ensures Repairs(v, ProcessPing(v, m.hdr), Some(m))
  {
    hide ProcessPing, PingReplies, Known, EpochsBounded, Speaks, Reports;
    var w := ProcessPing(v, m.hdr);
    MyselfKnown(v);
    MyselfKnown(w);
    PingRecords(v, m.hdr);
    RepliesSpeak(v, m.hdr, m.body.wantsPong);
    RepliesReport(v, m.hdr, m.body.wantsPong);
  }

  lemma RepliesReport(v: View, h: Header, wantsPong: bool)
    requires Known(v) && h.sender != v.myself
    ensures forall x :: x in PingReplies(v, h, wantsPong) ==> Reports(v, x)
    ensures v.nodes[v.myself].slaveof.None? && ProcessPing(v, h).nodes[v.myself].slaveof.None? ==>
              forall x :: x in PingReplies(v, h, wantsPong) ==> x.hdr.slaveof.None?
  {
    hide ApplyClaim, DirtySlots, UpdateRole, IsFirstStale, StaleUpdates;
    var a := AbsorbHeader(v, h);
    if h.sender in a.nodes {
      var w := ApplyClaim(a, h);
      ClaimRecords(a, h);
      UpdateContents(w, h);
    }
  }

  lemma UpdateContents(w: View, h: Header)
    requires Known(w)
    ensures forall x :: x in StaleUpdates(w, h) ==>
      && x.body.Update? && x.body.about in w.nodes && x.body.epoch == w.nodes[x.body.about].configEpoch
      && x.body.about != h.sender && x.hdr.slaveof == Me(w).slaveof
  {
  }

  lemma UpdateActs(v: View, m: Msg)
    requires Known(v) && m.hdr.sender != v.myself && m.body.Update? && m.body.about != v.myself
    ensures Acts(v, ProcessUpdate(v, m.hdr, m.body.about, m.body.epoch, m.body.slots), Some(m), {})
    ensures Repairs(v, ProcessUpdate(v, m.hdr, m.body.about, m.body.epoch, m.body.slots), Some(m))
  {
    hide ProcessUpdate, Known;
    var w := ProcessUpdate(v, m.hdr, m.body.about, m.body.epoch, m.body.slots);
    MyselfKnown(v);
    MyselfKnown(w);
    UpdateRecords(v, m.hdr, m.body.about, m.body.epoch, m.body.slots);
  }

  lemma AbsorbActs(v: View, m: Msg)
    requires Known(v) && m.hdr.sender != v.myself
    ensures Acts(v, AbsorbHeader(v, m.hdr), Some(m), {}) && Repairs(v, AbsorbHeader(v, m.hdr), Some(m))
  {
    hide AbsorbHeader;
    AbsorbRecords(v, m.hdr);
  }

  lemma VoteActs(v: View, m: Msg, c: Clock)
    requires Known(v) && m.hdr.sender != v.myself && Grants(AbsorbHeader(v, m.hdr), m.hdr, c)
    ensures var a := AbsorbHeader(v, m.hdr);
      Acts(v, RecordVote(a, m.hdr, c), Some(m), {AckFor(a, m.hdr.sender)}) && Repairs(v, RecordVote(a, m.hdr, c), Some(m))
  {
    hide Grants, RecordVote;
    var a := AbsorbHeader(v, m.hdr);
    AbsorbRecords(v, m.hdr);
    VoteRecords(a, m.hdr, c);
    BuiltHeaderSpeaks(a);
  }

  lemma CronActs(v: View, c: Clock)
    requires Known(v) && Known(HandleFailover(v, c))
    ensures var w := HandleFailover(v, c);
      && Acts(v, w, None, {}) && (!FailoverBranch(v, c).Win? ==> Repairs(v, w, None))
      && Acts(v, w, None, Broadcast(w, BuildHeader(w).(forceAck := v.manualEnd), AuthRequest))
      && Acts(v, w, None, Broadcast(w, BuildHeader(w), Ping(false)))
  {
    hide FailoverBranch, ServesSlots, BuildHeader;
    var w := HandleFailover(v, c);
    BroadcastSpeaks(w, v.manualEnd, AuthRequest);
    BroadcastSpeaks(w, false, Ping(false));
    BuiltHeaderSlave(w);
  }

  lemma BuiltHeaderSlave(w: View)
    requires Known(w)
    ensures BuildHeader(w).slaveof == w.nodes[w.myself].slaveof && !BuildHeader(w).forceAck
  {
  }

  lemma CommandActs(v: View, cmd: Command)
    requires Known(v) && EpochsBounded(v)
    ensures var w := RunCommand(v, cmd);
      && Acts(v, w, None, {}) && Acts(v, w, None, Broadcast(w, BuildHeader(w), Ping(false)))
      && (!IsEpochCommand(cmd) ==> Repairs(v, w, None))
  {
    hide RunCommand, BuildHeader, Known, EpochsBounded;
    var w := RunCommand(v, cmd);
    MyselfKnown(v);
    MyselfKnown(w);
    CommandRecords(v, cmd);
    BroadcastSpeaks(w, false, Ping(false));
    BuiltHeaderSlave(w);
  }

  lemma SendActs(v: View, to: Id, wantsPong: bool)
    requires Known(v)
    ensures Acts(v, v, None, {Msg(to, BuildHeader(v), Ping(wantsPong))})
  {
    BuiltHeaderSpeaks(v);
  }

  // ----- One event on the whole network

  /** Apply(s, e) is the move of node i to w on m, sending out, up to the record of votes. */
  ghost predicate Describes(s: Net, t: Net, i: Id, w: View, m: Option<Msg>, out: set<Msg>) {
    && i in s.views && Acts(s.views[i], w, m, out) && s.views[i].myself == i
    && s.views.Keys == s.epochs.Keys && t.epochs == s.epochs[i := s.epochs[i] + {OwnEpoch(w)}]
    && t.views == s.views[i := w] && (m.Some? ==> m.value in s.wire && m.value.dst == i)
    && (forall x :: x in t.wire ==> x in s.wire || x in out)
  }

  lemma MoveDescribed(s: Net, i: Id, w: View, m: Option<Msg>, out: set<Msg>, t: Net)
    requires Up(s, i) && s.views.Keys == s.epochs.Keys && Known(w) && Acts(s.views[i], w, m, out)
    requires m.Some? ==> m.value in s.wire && m.value.dst == i
    requires t.views == s.views[i := w] && t.epochs == s.epochs[i := s.epochs[i] + {Me(w).configEpoch}]
    requires forall x :: x in t.wire ==> x in s.wire || x in out
    ensures Describes(s, t, i, w, m, out)
  {
    hide Sourced, Speaks, Reports;
  }

  lemma DeliverDescribed(s: Net, m: Msg, c: Clock) returns (w: View, out: set<Msg>)
    requires EpochInv(s) && HistWire(s) && m in s.wire && Up(s, m.dst)
    ensures Describes(s, Apply(s, Deliver(m, c)), m.dst, w, Some(m), out) && Repairs(s.views[m.dst], w, Some(m))
  {
    hide ProcessPing, PingReplies, ProcessUpdate, AbsorbHeader, Grants, Counts, RecordVote, BuildHeader, Acts, CronAt,
      RunCommand, Broadcast, Known, ViewOk, EpochsBounded, Describes, Repairs;
    var v := s.views[m.dst];
    ViewOkParts(m.dst, v);
    out := {};
    match m.body {
    case Ping(wantsPong) =>
      w, out := ProcessPing(v, m.hdr), PingReplies(v, m.hdr, wantsPong);
      PingActs(v, m);
    case Update(about, epoch, claimed) =>
      w := ProcessUpdate(v, m.hdr, about, epoch, claimed);
      UpdateActs(v, m);
    case AuthRequest =>
      w := AbsorbHeader(v, m.hdr);
      AbsorbActs(v, m);
      if Grants(w, m.hdr, c) {
        VoteActs(v, m, c);
        VoteRecords(w, m.hdr, c);
        out := {AckFor(w, m.hdr.sender)};
        w := RecordVote(w, m.hdr, c);
      }
    case AuthAck =>
      w := AbsorbHeader(v, m.hdr);
      AbsorbActs(v, m);
      if Counts(w, m.hdr) {
        CountedActs(v, w, m);
        KnownCount(w);
        w := w.(authCount := w.authCount + 1);
      }
    }
    MoveDescribed(s, m.dst, w, Some(m), out, Apply(s, Deliver(m, c)));
  }

  lemma CountedActs(v: View, w: View, m: Msg)
    requires Acts(v, w, Some(m), {}) && Repairs(v, w, Some(m))
    ensures Acts(v, w.(authCount := w.authCount + 1), Some(m), {}) && Repairs(v, w.(authCount := w.authCount + 1), Some(m))
  {
  }

  /** UPDATEs in flight are not about their receiver. */
  ghost predicate HistWire(s: Net) {
    forall m :: m in s.wire && m.body.Update? ==> m.body.about != m.dst
  }

  /** Either nothing but lost packets, or one node acts. */
  lemma StepDescribed(s: Net, e: Event) returns (acts: bool, i: Id, w: View, m: Option<Msg>, out: set<Msg>)
    requires EpochInv(s) && HistWire(s)
    ensures acts ==> Describes(s, Apply(s, e), i, w, m, out) && (OnlyRepairs(s, e) ==> Repairs(s.views[i], w, m))
    ensures !acts ==> Apply(s, e).views == s.views && Apply(s, e).epochs == s.epochs
    ensures !acts ==> forall x :: x in Apply(s, e).wire ==> x in s.wire
  {
    hide DeliverTo, BuildHeader, Acts, CronAt, RunCommand, Broadcast, Known, ViewOk, HistWire, Describes, FailoverBranch;
    acts, i, out, m := false, 0, {}, None;
    w := *;
    match e
    case Deliver(x, c) =>
      if x in s.wire && Up(s, x.dst) {
        acts, i, m := true, x.dst, Some(x);
        w, out := DeliverDescribed(s, x, c);
      }
    case Lose(_) =>
    case SendPing(k, to, wantsPong) =>
      if Up(s, k) && to != k {
        acts, i, w := true, k, s.views[k];
        out := {Msg(to, BuildHeader(w), Ping(wantsPong))};
        SendActs(w, to, wantsPong);
        MoveDescribed(s, k, w, None, out, Apply(s, e));
      }
    case Cron(k, c) =>
      if Up(s, k) {
        acts, i := true, k;
        w, out := CronDescribed(s, k, c);
      }
    case Run(k, cmd) =>
      if Up(s, k) {
        acts, i, w := true, k, RunCommand(s.views[k], cmd);
        var v := s.views[k];
        ViewOkParts(k, v);
        CommandActs(v, cmd);
        if cmd.Takeover? && !Me(v).master && Me(v).slaveof.Some? { out := Broadcast(w, BuildHeader(w), Ping(false)); }
        MoveDescribed(s, k, w, None, out, Apply(s, e));
      }
  }

  lemma CronDescribed(s: Net, i: Id, c: Clock) returns (w: View, out: set<Msg>)
    requires EpochInv(s) && Up(s, i)
    ensures Describes(s, CronAt(s, i, c), i, w, None, out)
    ensures !FailoverBranch(s.views[i], c).Win? ==> Repairs(s.views[i], w, None)
  {
    hide BuildHeader, Acts, Broadcast, Known, ViewOk, HandleFailover, FailoverBranch, Describes;
    var v := s.views[i];
    w, out := HandleFailover(v, c), {};
    CronViewOk(i, v, c);
    CronActs(v, c);
    if FailoverBranch(v, c).Ask? {
      out := Broadcast(w, BuildHeader(w).(forceAck := v.manualEnd), AuthRequest);
    } else if FailoverBranch(v, c).Win? {
      out := Broadcast(w, BuildHeader(w), Ping(false));
    }
    MoveDescribed(s, i, w, None, out, CronAt(s, i, c));
  }
}
