/**
 Why elections need the side condition on late ACKs: a run of the network, with three voting masters that
 every node agrees on, in which two slaves win the same epoch.
 */
module ClusterStaleAck {
  import opened Optional
  import opened ClusterView
  import opened ClusterNet
  import opened ClusterEpochs
  import opened ClusterElection

  /** Masters 1, 2 and 3 serve a slot each; 4 is a slave of 1 and 5 a slave of 2. */
  function Members(): map<Id, Node> {
    map[1 := Node(0, true, None, false, 0), 2 := Node(0, true, None, false, 0), 3 := Node(0, true, None, false, 0),
        4 := Node(0, false, Some(1), false, 0), 5 := Node(0, false, Some(2), false, 0)]
  }

  function Table(): map<nat, Id> { map[0 := 1, 1 := 2, 2 := 3] }

  /** Node i of that cluster; only what an election moves varies. */
  function At(i: Id, epoch: nat, vote: nat, asked: nat, count: nat, sent: bool, time: int): View {
    View(i, epoch, vote, 3, Members(), Table(), map[], asked, count, sent, time, true, true, false)
  }

  /** The header of slave 4 or 5 in epoch e, asking for votes. */
  function Plea(i: Id, e: nat): Header
    requires i == 4 || i == 5
  {
    Header(i, e, 0, Some(i - 3), {i - 4}, true)
  }

  function Request(i: Id, e: nat, to: Id): Msg
    requires i == 4 || i == 5
  {
    Msg(to, Plea(i, e), AuthRequest)
  }

  function Ack(voter: Id, e: nat, to: Id): Msg
    requires 1 <= voter <= 3
  {
    Msg(to, Header(voter, e, 0, None, {voter - 1}, false), AuthAck)
  }

  function Tick(now: int): Clock { Clock(now, 0, true, 0, 0) }

  lemma Basics(v: View, i: Id)
    requires v.nodes == Members() && v.owner == Table() && v.myself == i && 1 <= i <= 5
    ensures Known(v) && EpochsBounded(v)
    ensures forall n :: 1 <= n <= 3 ==> ServesSlots(v, n) && SlotsOf(v, n) == {n - 1}
  {
    assert v.owner[0] == 1 && v.owner[1] == 2 && v.owner[2] == 3;
    assert SlotsOf(v, 1) == {0} && SlotsOf(v, 2) == {1} && SlotsOf(v, 3) == {2};
  }

  lemma Absorbed(i: Id, epoch: nat, vote: nat, asked: nat, count: nat, sent: bool, time: int, h: Header)
    requires 1 <= i <= 5 && 1 <= h.sender <= 5 && h.configEpoch == 0
    ensures AbsorbHeader(At(i, epoch, vote, asked, count, sent, time), h)
         == At(i, Max(epoch, h.currentEpoch), vote, asked, count, sent, time)
  {
    assert Members()[h.sender := Members()[h.sender]] == Members();
  }

  /** A master that has not voted in epoch e grants its vote, and its ACK is as in `Ack`. */
  lemma Granted(i: Id, epoch: nat, vote: nat, c: Id, e: nat)
    requires 1 <= i <= 3 && (c == 4 || c == 5) && epoch <= e && vote < e
    ensures var a := At(i, e, vote, 0, 0, false, 0);
      && Known(a) && AbsorbHeader(At(i, epoch, vote, 0, 0, false, 0), Plea(c, e)) == a
      && Grants(a, Plea(c, e), Tick(0)) && AckFor(a, c) == Ack(i, e, c)
      && RecordVote(a, Plea(c, e), Tick(0)) == At(i, e, e, 0, 0, false, 0)
  {
    var a := At(i, e, vote, 0, 0, false, 0);
    Absorbed(i, epoch, vote, 0, 0, false, 0, Plea(c, e));
    Basics(a, i);
    assert Members()[c - 3 := Members()[c - 3].(votedTime := 0)] == Members();
  }

  lemma Counted(i: Id, voter: Id, epoch: nat, asked: nat, count: nat, sent: bool, time: int, e: nat)
    requires (i == 4 || i == 5) && 1 <= voter <= 3 && asked <= e <= epoch
    ensures var v := At(i, epoch, 0, asked, count, sent, time);
      Known(v) && AbsorbHeader(v, Ack(voter, e, i).hdr) == v && Counts(v, Ack(voter, e, i).hdr)
  {
    var v := At(i, epoch, 0, asked, count, sent, time);
    Absorbed(i, epoch, 0, asked, count, sent, time, Ack(voter, e, i).hdr);
    Basics(v, i);
  }

  lemma Asking(i: Id, epoch: nat, asked: nat, count: nat, time: int)
    requires i == 4 || i == 5
    ensures var v := At(i, epoch, 0, asked, count, false, time);
      var w := At(i, epoch + 1, 0, epoch + 1, count, true, time);
      && Known(v) && Known(w) && FailoverBranch(v, Tick(time)) == Ask && HandleFailover(v, Tick(time)) == w
      && BuildHeader(w).(forceAck := true) == Plea(i, epoch + 1)
  {
    Basics(At(i, epoch, 0, asked, count, false, time), i);
    Basics(At(i, epoch + 1, 0, epoch + 1, count, true, time), i);
  }

  lemma Resetting(i: Id, epoch: nat, asked: nat, count: nat, time: int)
    requires (i == 4 || i == 5) && time == 0
    ensures var v := At(i, epoch, 0, asked, count, true, time);
      && Known(v) && FailoverBranch(v, Tick(5000)) == Reset
      && HandleFailover(v, Tick(5000)) == At(i, epoch, 0, asked, 0, false, 5000)
  {
    Basics(At(i, epoch, 0, asked, count, true, time), i);
  }

  lemma Winning(i: Id, epoch: nat, asked: nat, time: int)
    requires i == 4 || i == 5
    ensures var v := At(i, epoch, 0, asked, 2, true, time); Known(v) && FailoverBranch(v, Tick(time)) == Win
  {
    Basics(At(i, epoch, 0, asked, 2, true, time), i);
  }

  // ----- The same on the network

  /** The five nodes are there, each in the given view. */
  ghost predicate Cast(s: Net, a: View, b: View, c: View, d: View, e: View) {
    && s.views.Keys == s.epochs.Keys == s.tally.Keys == {1, 2, 3, 4, 5}
    && s.views[1] == a && s.views[2] == b && s.views[3] == c && s.views[4] == d && s.views[5] == e
  }

  /** Everything still to be delivered except m. */
  ghost predicate Keeps(s: Net, t: Net, m: Msg) { forall x :: x in s.wire && x != m ==> x in t.wire }

  lemma AskNet(s: Net, i: Id, epoch: nat, asked: nat, count: nat, time: int) returns (t: Net)
    requires (i == 4 || i == 5) && i in s.views && i in s.epochs && i in s.tally
    requires s.views[i] == At(i, epoch, 0, asked, count, false, time)
    ensures t == Apply(s, Cron(i, Tick(time)))
    ensures t.views == s.views[i := At(i, epoch + 1, 0, epoch + 1, count, true, time)]
    ensures t.epochs.Keys == s.epochs.Keys && t.tally == s.tally && t.wins == s.wins
    ensures Request(i, epoch + 1, 1) in t.wire && Request(i, epoch + 1, 2) in t.wire
    ensures Request(i, epoch + 1, 3) in t.wire && Request(i, epoch + 1, 9 - i) in t.wire
  {
    hide HandleFailover, FailoverBranch, Known, BuildHeader, DeliverTo, RunCommand;
    t := Apply(s, Cron(i, Tick(time)));
    Asking(i, epoch, asked, count, time);
    var w := At(i, epoch + 1, 0, epoch + 1, count, true, time);
    var out := Broadcast(w, Plea(i, epoch + 1), AuthRequest);
    assert Request(i, epoch + 1, 1) in out && Request(i, epoch + 1, 2) in out && Request(i, epoch + 1, 3) in out;
    assert Request(i, epoch + 1, 9 - i) in out;
  }

  lemma VoteNet(s: Net, i: Id, epoch: nat, vote: nat, c: Id, e: nat) returns (t: Net)
    requires 1 <= i <= 3 && (c == 4 || c == 5) && epoch <= e && vote < e && i in s.views && i in s.epochs && i in s.tally
    requires s.views[i] == At(i, epoch, vote, 0, 0, false, 0) && Request(c, e, i) in s.wire
    ensures t == Apply(s, Deliver(Request(c, e, i), Tick(0)))
    ensures t.views == s.views[i := At(i, e, e, 0, 0, false, 0)]
    ensures t.epochs.Keys == s.epochs.Keys && t.tally == s.tally && t.wins == s.wins
    ensures Ack(i, e, c) in t.wire && Keeps(s, t, Request(c, e, i))
  {
    hide AbsorbHeader, Grants, RecordVote, Known, BuildHeader, CronAt, RunCommand, ProcessPing, ProcessUpdate, PingReplies;
    t := Apply(s, Deliver(Request(c, e, i), Tick(0)));
    Basics(s.views[i], i);
    Granted(i, epoch, vote, c, e);
  }

  lemma HearNet(s: Net) returns (t: Net)
    requires 5 in s.views && 5 in s.epochs && 5 in s.tally
    requires s.views[5] == At(5, 0, 0, 0, 0, false, 0) && Request(4, 1, 5) in s.wire
    ensures t == Apply(s, Deliver(Request(4, 1, 5), Tick(0)))
    ensures t.views == s.views[5 := At(5, 1, 0, 0, 0, false, 0)]
    ensures t.epochs.Keys == s.epochs.Keys && t.tally == s.tally && t.wins == s.wins
    ensures Keeps(s, t, Request(4, 1, 5))
  {
    hide AbsorbHeader, Known, BuildHeader, CronAt, RunCommand, ProcessPing, ProcessUpdate, PingReplies, ServesSlots;
    t := Apply(s, Deliver(Request(4, 1, 5), Tick(0)));
    Basics(s.views[5], 5);
    Basics(At(5, 1, 0, 0, 0, false, 0), 5);
    Absorbed(5, 0, 0, 0, 0, false, 0, Plea(4, 1));
  }

  lemma CountNet(s: Net, i: Id, voter: Id, epoch: nat, asked: nat, count: nat, sent: bool, time: int, e: nat)
    returns (t: Net)
    requires (i == 4 || i == 5) && 1 <= voter <= 3 && asked <= e <= epoch && i in s.views && i in s.epochs && i in s.tally
    requires s.views[i] == At(i, epoch, 0, asked, count, sent, time) && Ack(voter, e, i) in s.wire
    ensures t == Apply(s, Deliver(Ack(voter, e, i), Tick(0)))
    ensures t.views == s.views[i := At(i, epoch, 0, asked, count + 1, sent, time)]
    ensures t.epochs.Keys == s.epochs.Keys && t.tally == s.tally[i := s.tally[i] + {Vote(voter, e, i)}] && t.wins == s.wins
    ensures Keeps(s, t, Ack(voter, e, i))
  {
    hide AbsorbHeader, Grants, RecordVote, Known, BuildHeader, CronAt, RunCommand, ProcessPing, ProcessUpdate, PingReplies,
      Counts;
    t := Apply(s, Deliver(Ack(voter, e, i), Tick(0)));
    Counted(i, voter, epoch, asked, count, sent, time, e);
  }

  lemma ResetNet(s: Net) returns (t: Net)
    requires 4 in s.views && 4 in s.epochs && 4 in s.tally && s.views[4] == At(4, 1, 0, 1, 0, true, 0)
    ensures t == Apply(s, Cron(4, Tick(5000)))
    ensures t.views == s.views[4 := At(4, 1, 0, 1, 0, false, 5000)]
    ensures t.epochs.Keys == s.epochs.Keys && t.tally == s.tally[4 := {}] && t.wins == s.wins
    ensures t.wire == s.wire
  {
    hide HandleFailover, FailoverBranch, Known, BuildHeader, DeliverTo, RunCommand;
    t := Apply(s, Cron(4, Tick(5000)));
    Resetting(4, 1, 1, 0, 0);
  }

  lemma WinNet(s: Net, i: Id, epoch: nat, asked: nat, time: int) returns (t: Net)
    requires (i == 4 || i == 5) && i in s.views && i in s.epochs && i in s.tally
    requires s.views[i] == At(i, epoch, 0, asked, 2, true, time)
    ensures t == Apply(s, Cron(i, Tick(time)))
    ensures t.wins == s.wins + {WinRecord(i, asked, 3, s.tally[i])}
    ensures t.epochs.Keys == s.epochs.Keys && t.tally == s.tally
    ensures t.views.Keys == s.views.Keys && forall n :: n in s.views && n != i ==> t.views[n] == s.views[n]
  {
    hide HandleFailover, FailoverBranch, Known, BuildHeader, DeliverTo, RunCommand, Broadcast;
    t := Apply(s, Cron(i, Tick(time)));
    Winning(i, epoch, asked, time);
  }

  /** The events, in order. */
  function Script(): seq<Event> {
    [Cron(4, Tick(0)), Deliver(Request(4, 1, 2), Tick(0)), Deliver(Request(4, 1, 5), Tick(0)), Cron(4, Tick(5000)),
     Deliver(Ack(2, 1, 4), Tick(0)), Cron(4, Tick(5000)), Deliver(Request(4, 2, 3), Tick(0)),
     Deliver(Ack(3, 2, 4), Tick(0)), Cron(4, Tick(5000)), Cron(5, Tick(0)), Deliver(Request(5, 2, 1), Tick(0)),
     Deliver(Request(5, 2, 2), Tick(0)), Deliver(Ack(1, 2, 5), Tick(0)), Deliver(Ack(2, 2, 5), Tick(0)),
     Cron(5, Tick(0))]
  }

  function Start(): Net {
    var v := map i: nat | 1 <= i <= 5 :: At(i, 0, 0, 0, 0, false, 0);
    Net(v, multiset{}, {}, map i | i in v :: {}, {}, map i | i in v :: {0})
  }

  /** The first k events of the script lead to s. */
  ghost predicate Reached(k: nat, s: Net) { k <= |Script()| && s == After(Start(), Script()[..k]) }

  lemma Next(k: nat, s: Net, e: Event)
    requires Reached(k, s) && k < |Script()| && Script()[k] == e
    ensures Reached(k + 1, Apply(s, e))
  {
    hide Apply, Script, Start;
    assert Script()[..k + 1][..k] == Script()[..k];
  }

  lemma StartQuiet()
    ensures Quiet(Start())
  {
    hide Known, EpochsBounded;
    var s := Start();
    forall i | i in s.views
      ensures ViewOk(i, s.views[i])
    {
      Basics(s.views[i], i);
    }
  }

  function Fresh0(i: Id): View { At(i, 0, 0, 0, 0, false, 0) }

  function Second(): View { At(2, 1, 1, 0, 0, false, 0) }

  function Fifth(): View { At(5, 1, 0, 0, 0, false, 0) }

  /** Slave 4 asks in epoch 1; master 2 votes for it, and slave 5 hears of the epoch. */
  lemma Act1() returns (t: Net)
    ensures Reached(3, t) && t.wins == {} && Ack(2, 1, 4) in t.wire
    ensures Cast(t, Fresh0(1), Second(), Fresh0(3), At(4, 1, 0, 1, 0, true, 0), Fifth())
    ensures t.tally[4] == {} && t.tally[5] == {}
  {
    hide Apply, Reached, Members, Table, Start;
    var s1 := Asks();
    var s2 := Votes(s1);
    t := HearNet(s2);
    Next(2, s2, Deliver(Request(4, 1, 5), Tick(0)));
  }

  lemma Asks() returns (t: Net)
    ensures Reached(1, t) && t.wins == {} && Request(4, 1, 2) in t.wire && Request(4, 1, 5) in t.wire
    ensures Cast(t, Fresh0(1), Fresh0(2), Fresh0(3), At(4, 1, 0, 1, 0, true, 0), Fresh0(5))
    ensures t.tally[4] == {} && t.tally[5] == {}
  {
    hide Apply, Reached, Members, Table;
    Begun();
    t := AskNet(Start(), 4, 0, 0, 0, 0);
    Next(0, Start(), Cron(4, Tick(0)));
  }

  lemma Votes(s: Net) returns (t: Net)
    requires Reached(1, s) && s.wins == {} && Request(4, 1, 2) in s.wire && Request(4, 1, 5) in s.wire
    requires Cast(s, Fresh0(1), Fresh0(2), Fresh0(3), At(4, 1, 0, 1, 0, true, 0), Fresh0(5))
    requires s.tally[4] == {} && s.tally[5] == {}
    ensures Reached(2, t) && t.wins == {} && Ack(2, 1, 4) in t.wire && Request(4, 1, 5) in t.wire
    ensures Cast(t, Fresh0(1), Second(), Fresh0(3), At(4, 1, 0, 1, 0, true, 0), Fresh0(5))
    ensures t.tally[4] == {} && t.tally[5] == {}
  {
    hide Apply, Reached, Members, Table, Start;
    t := VoteNet(s, 2, 0, 0, 4, 1);
    Next(1, s, Deliver(Request(4, 1, 2), Tick(0)));
  }

  lemma Begun()
    ensures Reached(0, Start())
  {
  }

  /** It gives up, and is credited the late ACK. */
  lemma Act2(s: Net) returns (t: Net)
    requires Reached(3, s) && Ack(2, 1, 4) in s.wire
    requires Cast(s, Fresh0(1), Second(), Fresh0(3), At(4, 1, 0, 1, 0, true, 0), Fifth())
    requires s.tally[4] == {} && s.tally[5] == {}
    ensures Reached(5, t) && t.wins == s.wins
    ensures Cast(t, Fresh0(1), Second(), Fresh0(3), At(4, 1, 0, 1, 1, false, 5000), Fifth())
    ensures t.tally[4] == {Vote(2, 1, 4)} && t.tally[5] == {}
  {
    hide Apply, Reached, Members, Table;
    var s1 := ResetNet(s);
    Next(3, s, Cron(4, Tick(5000)));
    t := CountNet(s1, 4, 2, 1, 1, 0, false, 5000, 1);
    Next(4, s1, Deliver(Ack(2, 1, 4), Tick(0)));
  }

  /** It asks again, in epoch 2, and gets the vote of master 3. */
  lemma Act3(s: Net) returns (t: Net)
    requires Reached(5, s)
    requires Cast(s, Fresh0(1), Second(), Fresh0(3), At(4, 1, 0, 1, 1, false, 5000), Fifth())
    requires s.tally[4] == {Vote(2, 1, 4)} && s.tally[5] == {}
    ensures Reached(7, t) && t.wins == s.wins && Ack(3, 2, 4) in t.wire
    ensures Cast(t, Fresh0(1), Second(), At(3, 2, 2, 0, 0, false, 0), At(4, 2, 0, 2, 1, true, 5000), Fifth())
    ensures t.tally[4] == {Vote(2, 1, 4)} && t.tally[5] == {}
  {
    hide Apply, Reached, Members, Table;
    var s1 := AskNet(s, 4, 1, 1, 1, 5000);
    Next(5, s, Cron(4, Tick(5000)));
    t := VoteNet(s1, 3, 0, 0, 4, 2);
    Next(6, s1, Deliver(Request(4, 2, 3), Tick(0)));
  }

  /** That makes two of three: it wins epoch 2. */
  lemma Act4(s: Net) returns (t: Net)
    requires Reached(7, s) && s.wins == {} && Ack(3, 2, 4) in s.wire
    requires Cast(s, Fresh0(1), Second(), At(3, 2, 2, 0, 0, false, 0), At(4, 2, 0, 2, 1, true, 5000), Fifth())
    requires s.tally[4] == {Vote(2, 1, 4)} && s.tally[5] == {}
    ensures Reached(9, t) && t.wins == {WinRecord(4, 2, 3, {Vote(2, 1, 4), Vote(3, 2, 4)})}
    ensures t.views.Keys == t.epochs.Keys == t.tally.Keys == {1, 2, 3, 4, 5} && t.tally[5] == {}
    ensures t.views[1] == Fresh0(1) && t.views[2] == Second() && t.views[5] == Fifth()
  {
    hide Apply, Reached, Members, Table;
    var s1 := CountNet(s, 4, 3, 2, 2, 1, true, 5000, 2);
    Next(7, s, Deliver(Ack(3, 2, 4), Tick(0)));
    t := WinNet(s1, 4, 2, 2, 5000);
    Next(8, s1, Cron(4, Tick(5000)));
    assert s1.tally[4] == {Vote(2, 1, 4), Vote(3, 2, 4)};
  }

  /** Slave 5 asks in epoch 2 as well; masters 1 and 2 have not voted in it. */
  lemma Act5(s: Net) returns (t: Net)
    requires Reached(9, s)
    requires s.views.Keys == s.epochs.Keys == s.tally.Keys == {1, 2, 3, 4, 5} && s.tally[5] == {}
    requires s.views[1] == Fresh0(1) && s.views[2] == Second() && s.views[5] == Fifth()
    ensures Reached(12, t) && t.wins == s.wins && Ack(1, 2, 5) in t.wire && Ack(2, 2, 5) in t.wire
    ensures t.views.Keys == t.epochs.Keys == t.tally.Keys == {1, 2, 3, 4, 5} && t.tally[5] == {}
    ensures t.views[5] == At(5, 2, 0, 2, 0, true, 0)
  {
    hide Apply, Reached, Members, Table;
    var s1 := AskNet(s, 5, 1, 0, 0, 0);
    Next(9, s, Cron(5, Tick(0)));
    var s2 := VoteNet(s1, 1, 0, 0, 5, 2);
    Next(10, s1, Deliver(Request(5, 2, 1), Tick(0)));
    t := VoteNet(s2, 2, 1, 1, 5, 2);
    Next(11, s2, Deliver(Request(5, 2, 2), Tick(0)));
  }

  lemma Act6(s: Net) returns (t: Net)
    requires Reached(12, s) && Ack(1, 2, 5) in s.wire && Ack(2, 2, 5) in s.wire
    requires s.views.Keys == s.epochs.Keys == s.tally.Keys == {1, 2, 3, 4, 5} && s.tally[5] == {}
    requires s.views[5] == At(5, 2, 0, 2, 0, true, 0)
    ensures Reached(15, t) && t.wins == s.wins + {WinRecord(5, 2, 3, {Vote(1, 2, 5), Vote(2, 2, 5)})}
  {
    hide Apply, Reached, Members, Table;
    var s1 := CountNet(s, 5, 1, 2, 2, 0, true, 0, 2);
    Next(12, s, Deliver(Ack(1, 2, 5), Tick(0)));
    var s2 := CountNet(s1, 5, 2, 2, 2, 1, true, 0, 2);
    Next(13, s1, Deliver(Ack(2, 2, 5), Tick(0)));
    t := WinNet(s2, 5, 2, 2, 0);
    Next(14, s2, Cron(5, Tick(0)));
    assert s2.tally[5] == {Vote(1, 2, 5), Vote(2, 2, 5)};
  }

  /**
   Counting late ACKs breaks election safety: from a quiet start, with masters 1, 2 and 3 the only voters and
   every quorum computed for three masters, two different slaves win epoch 2.
   */
  lemma StaleAckBreaksSafety()
    ensures Quiet(Start()) && |{1, 2, 3}| == 3
    ensures exists w1, w2 ::
              && w1 in After(Start(), Script()).wins && w2 in After(Start(), Script()).wins
              && w1.epoch == w2.epoch && w1.candidate != w2.candidate && w1.size == w2.size == 3
              && Voters(w1.tally) <= {1, 2, 3} && Voters(w2.tally) <= {1, 2, 3}
  {
    hide After, Start, Quiet, Apply, At, Request, Ack, Fresh0, Second, Fifth, Cast;
    StartQuiet();
    var s1 := Act1();
    var s2 := Act2(s1);
    var s3 := Act3(s2);
    var s4 := Act4(s3);
    var s5 := Act5(s4);
    var s6 := Act6(s5);
    assert Script()[..15] == Script();
    var w1 := WinRecord(4, 2, 3, {Vote(2, 1, 4), Vote(3, 2, 4)});
    var w2 := WinRecord(5, 2, 3, {Vote(1, 2, 5), Vote(2, 2, 5)});
    assert w1 in s6.wins && w2 in s6.wins;
  }
}
