/**
 When a vote is given and when an election is held: the exact conditions, and that every vote and every win recorded in
 any run was made under them.
 */
module ClusterVotes {
  import opened Optional
  import opened ClusterView
  import opened ClusterNet

  // ----- Votes

  /** The node may vote at all, at this epoch. */
  predicate MayVote(v: View, h: Header)
    requires Known(v)
  {
    Me(v).master && SlotsOf(v, v.myself) != {} && h.currentEpoch >= v.currentEpoch && v.lastVoteEpoch != v.currentEpoch
  }

  /** The requester is a slave here, of a known master that has failed or is being failed over by hand. */
  predicate MayAsk(v: View, h: Header, c: Clock) {
    && h.sender in v.nodes && !v.nodes[h.sender].master && v.nodes[h.sender].slaveof.Some?
    && var m := v.nodes[h.sender].slaveof.value;
    && m in v.nodes && (v.nodes[m].failed || h.forceAck) && c.now - v.nodes[m].votedTime >= 2 * c.timeout
  }

  /** Slot j is claimed, and recorded here under a greater configEpoch. */
  predicate NewerHere(v: View, h: Header, j: nat) {
    j in h.myslots && j in v.owner && v.owner[j] in v.nodes && v.nodes[v.owner[j]].configEpoch > h.configEpoch
  }

  /** A vote is granted exactly when the node may vote, the requester may ask, and no claimed slot has a newer owner here. */
  lemma VoteExactly(v: View, h: Header, c: Clock)
    requires Known(v)
    ensures Grants(v, h, c) <==> MayVote(v, h) && MayAsk(v, h, c) && forall j: nat :: !NewerHere(v, h, j)
  {
    assert ServesSlots(v, v.myself) <==> SlotsOf(v, v.myself) != {} by {
      if j :| j in v.owner && v.owner[j] == v.myself { assert j in SlotsOf(v, v.myself); }
      if j :| j in SlotsOf(v, v.myself) { assert v.owner[j] == v.myself; }
    }
    if Grants(v, h, c) {
      forall j: nat
        ensures !NewerHere(v, h, j)
      {
      }
    }
    if forall j: nat :: !NewerHere(v, h, j) {
      forall j | j in h.myslots && j in v.owner
        ensures v.nodes[v.owner[j]].configEpoch <= h.configEpoch
      {
        assert !NewerHere(v, h, j);
      }
    }
  }

  /** A slave whose slots have a newer owner here is refused, whatever else holds. */
  lemma StaleClaimantRefused(v: View, h: Header, c: Clock, j: nat)
    requires Known(v) && NewerHere(v, h, j)
    ensures !Grants(v, h, c)
  {
    VoteExactly(v, h, c);
  }

  /** Event e made x.voter vote for x.candidate, and rightly so. */
  ghost predicate RightlyCast(s: Net, e: Event, x: Vote) {
    && e.Deliver? && e.msg in s.wire && e.msg.body.AuthRequest? && Up(s, x.voter)
    && e.msg.dst == x.voter && e.msg.hdr.sender == x.candidate && e.msg.hdr.currentEpoch == x.epoch
    && var a := AbsorbHeader(s.views[x.voter], e.msg.hdr);
    && MayVote(a, e.msg.hdr) && MayAsk(a, e.msg.hdr, e.clock) && forall j: nat :: !NewerHere(a, e.msg.hdr, j)
  }

  lemma NewVotes(s: Net, e: Event, x: Vote)
    requires x in Apply(s, e).votes && x !in s.votes
    ensures RightlyCast(s, e, x)
  {
    hide ProcessPing, PingReplies, ProcessUpdate, RunCommand, HandleFailover, FailoverBranch, Counts, RecordVote, Broadcast,
      Grants, Known, MayVote, MayAsk, NewerHere, AbsorbHeader;
    var m, v := e.msg, s.views[e.msg.dst];
    var a := AbsorbHeader(v, m.hdr);
    AckSays(v, m.hdr, e.clock);
    VoteExactly(a, m.hdr, e.clock);
  }

  lemma AckSays(v: View, h: Header, c: Clock)
    requires Known(v)
    ensures var a := AbsorbHeader(v, h);
      Grants(a, h, c) ==>
        AckFor(a, h.sender).hdr.sender == v.myself && AckFor(a, h.sender).hdr.currentEpoch == h.currentEpoch
  {
  }

  /** In any run, every vote on record was cast when no claimed slot had a newer owner at the voter, and so on. */
  lemma {:induction false} VotesWereRight(s: Net, es: seq<Event>, x: Vote)
    requires x in After(s, es).votes && x !in s.votes
    ensures exists k :: 0 <= k < |es| && RightlyCast(After(s, es[..k]), es[k], x)
    decreases |es|
  {
    hide Apply, RightlyCast;
    var init := es[..|es| - 1];
    if x in After(s, init).votes {
      VotesWereRight(s, init, x);
      var k :| 0 <= k < |init| && RightlyCast(After(s, init[..k]), init[k], x);
      assert init[..k] == es[..k] && init[k] == es[k];
    } else {
      NewVotes(After(s, init), es[|es| - 1], x);
      assert es[..|init|] == init;
    }
  }

  // ----- Elections

  predicate ByHand(v: View) { v.manualEnd && v.manualCanStart }

  /** The node is a slave whose known master serves slots and has failed, or is being failed over by hand. */
  predicate HasCause(v: View, c: Clock) {
    && v.myself in v.nodes && !v.nodes[v.myself].master && v.nodes[v.myself].slaveof.Some?
    && var m := v.nodes[v.myself].slaveof.value;
    && m in v.nodes && SlotsOf(v, m) != {} && (ByHand(v) || (v.nodes[m].failed && c.dataFresh))
  }

  /** Without a cause nothing happens at all; with one, something is under way. */
  lemma IdleExactly(v: View, c: Clock)
    requires Known(v)
    ensures FailoverBranch(v, c).Idle? <==> !HasCause(v, c)
    ensures !HasCause(v, c) ==> HandleFailover(v, c) == v
  {
    if !Me(v).master && Me(v).slaveof.Some? {
      var m := Me(v).slaveof.value;
      assert ServesSlots(v, m) <==> SlotsOf(v, m) != {} by {
        if j :| j in v.owner && v.owner[j] == m { assert j in SlotsOf(v, m); }
        if j :| j in SlotsOf(v, m) { assert v.owner[j] == m; }
      }
    }
  }

  /** In particular a slave of a healthy master does nothing without a manual failover. */
  lemma HealthyMasterStays(v: View, c: Clock)
    requires Known(v) && !Me(v).master && Me(v).slaveof.Some? && !v.nodes[Me(v).slaveof.value].failed && !ByHand(v)
    ensures HandleFailover(v, c) == v
  {
    IdleExactly(v, c);
  }

  /** Votes are asked for once per election, when its time has come and not after its timeout. */
  lemma AsksInTime(v: View, c: Clock)
    requires Known(v) && FailoverBranch(v, c).Ask?
    ensures HasCause(v, c) && !v.authSent && v.authTime <= c.now <= v.authTime + AuthTimeout(c)
    ensures HandleFailover(v, c).authSent && HandleFailover(v, c).authEpoch == v.currentEpoch + 1
  {
    IdleExactly(v, c);
  }

  /** An election is won exactly by more than half of the masters, in time, after asking. */
  lemma WinsExactly(v: View, c: Clock)
    requires Known(v)
    ensures FailoverBranch(v, c).Win? <==>
      && HasCause(v, c) && v.authSent && v.authTime <= c.now <= v.authTime + AuthTimeout(c) && 2 * v.authCount > v.size
  {
    hide ServesSlots, SlotsOf;
    IdleExactly(v, c);
  }

  /** Event e is the win on record. */
  ghost predicate RightlyWon(s: Net, e: Event, w: WinRecord) {
    && e.Cron? && e.node == w.candidate && Up(s, w.candidate) && w.candidate in s.tally
    && var v := s.views[w.candidate];
    && w == WinRecord(w.candidate, v.authEpoch, v.size, s.tally[w.candidate])
    && HasCause(v, e.clock) && v.authSent && 2 * v.authCount > v.size
  }

  lemma NewWins(s: Net, e: Event, w: WinRecord)
    requires w in Apply(s, e).wins && w !in s.wins
    ensures RightlyWon(s, e, w)
  {
    hide ProcessPing, PingReplies, ProcessUpdate, RunCommand, HandleFailover, FailoverBranch, Counts, RecordVote, Broadcast,
      Grants, Known, AbsorbHeader, HasCause, BuildHeader;
    WinsExactly(s.views[e.node], e.clock);
  }

  /** In any run, every win on record was of a slave with a cause, that had asked, by more than half of the masters. */
  lemma {:induction false} WinsWereRight(s: Net, es: seq<Event>, w: WinRecord)
    requires w in After(s, es).wins && w !in s.wins
    ensures exists k :: 0 <= k < |es| && RightlyWon(After(s, es[..k]), es[k], w)
    decreases |es|
  {
    hide Apply, RightlyWon;
    var init := es[..|es| - 1];
    if w in After(s, init).wins {
      WinsWereRight(s, init, w);
      var k :| 0 <= k < |init| && RightlyWon(After(s, init[..k]), init[k], w);
      assert init[..k] == es[..k] && init[k] == es[k];
    } else {
      NewWins(After(s, init), es[|es| - 1], w);
      assert es[..|init|] == init;
    }
  }

  // ----- Packets that bring news

  /** An UPDATE goes back exactly when a claimed slot is recorded, after the claim, for another node with a later epoch. */
  lemma UpdateIsNews(v: View, h: Header)
    requires Known(v)
    ensures StaleUpdates(v, h) != {} <==> exists j: nat :: j in h.myslots && NewerHere(v, h, j) && v.owner[j] != h.sender
    ensures forall m :: m in StaleUpdates(v, h) ==>
      && m.dst == h.sender && m.body.Update? && m.body.about in v.nodes && m.body.about != h.sender
      && m.body.epoch == v.nodes[m.body.about].configEpoch > h.configEpoch
      && m.body.slots == SlotsOf(v, m.body.about) && !(m.body.slots !! h.myslots)
  {
    if j: nat :| j in h.myslots && NewerHere(v, h, j) && v.owner[j] != h.sender {
      assert StaleClaim(v, h, j);
      var k := LeastStale(v, h, j);
      assert IsFirstStale(v, h, k);
    }
    forall m | m in StaleUpdates(v, h)
      ensures !(m.body.slots !! h.myslots)
    {
      var j: nat :| IsFirstStale(v, h, j);
      StaleReported(v, h, m);
    }
  }

  lemma StaleReported(v: View, h: Header, m: Msg)
    requires Known(v) && m in StaleUpdates(v, h)
    ensures m.body.Update? && exists j: nat :: j in m.body.slots && j in h.myslots
  {
    var j: nat :| IsFirstStale(v, h, j);
    assert forall k: nat :: IsFirstStale(v, h, k) ==> k == j;
    assert j in SlotsOf(v, v.owner[j]);
  }

  lemma {:induction false} LeastStale(v: View, h: Header, j: nat) returns (k: nat)
    requires StaleClaim(v, h, j)
    ensures IsFirstStale(v, h, k)
    decreases j
  {
    if i: nat :| i in h.myslots && StaleClaim(v, h, i) && i < j {
      k := LeastStale(v, h, i);
    } else {
      k := j;
    }
  }
}
