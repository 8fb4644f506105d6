/** Which clusters have at most one winner in each term. After stepping down within a term a peer neither starts
    an election in that term nor wins it, so of two winners only the later can have the other's
    vote. With two peers each winner needs the other; with three or more it does not. */
module RaftClusterSize {
  import Collections
  import opened RaftPeer
  import opened RaftCluster
  import opened RaftElection
  import RaftSplitTerm

  /** The peer is past winning the term. */
  predicate Past(p: Peer, term: int)
  {
    p.term > term || (p.term == term && p.role == Follower)
  }

  /** Peer v starts an election in the term, by its vote for itself, or wins it. */
  predicate IsBid(e: Event, v: nat, term: int)
  {
    || (e.Granted? && e.voter == v && e.args.candidate == v && e.args.term == term)
    || (e.Won? && e.peer == v && e.args.term == term)
  }

  ghost predicate PastInv(peers: seq<Peer>, events: seq<Event>)
  {
    forall i :: 0 <= i < |events| && events[i].SteppedDown? ==>
      events[i].peer < |peers| && Past(peers[events[i].peer], events[i].term)
  }

  ghost predicate NoLateBids(events: seq<Event>)
  {
    forall i, j :: 0 <= i < j < |events| && events[i].SteppedDown? ==> !IsBid(events[j], events[i].peer, events[i].term)
  }

  ghost predicate DownInv(s: Cluster)
  {
    PastInv(s.peers, s.events) && NoLateBids(s.events)
  }

  /** How a step may move peer v from p to p', with these events. */
  ghost predicate RoleMove(p: Peer, p': Peer, v: nat, more: seq<Event>)
  {
    && |more| <= 1
    && p'.term >= p.term && (p'.term == p.term && p.role == Follower ==> p'.role == Follower)
    && (forall k :: 0 <= k < |more| && more[k].SteppedDown? ==> more[k].peer == v && Past(p', more[k].term))
    && (forall k, w, term :: 0 <= k < |more| && IsBid(more[k], w, term) ==> w == v && !Past(p, term))
  }

  lemma RoleMoveInv(peers: seq<Peer>, events: seq<Event>, v: nat, p: Peer, more: seq<Event>)
    requires PastInv(peers, events) && NoLateBids(events) && v < |peers| && RoleMove(peers[v], p, v, more)
    ensures PastInv(peers[v := p], events + more) && NoLateBids(events + more)
  {
    var all := events + more;
    forall i, j | 0 <= i < j < |all| && all[i].SteppedDown? ensures !IsBid(all[j], all[i].peer, all[i].term) {
      if j >= |events| {
        assert all[j] == more[j - |events|];
      }
    }
  }

  lemma ElectDown(s: Cluster, i: nat)
    requires PeersInv(s.peers) && DownInv(s) && Enabled(s, Elect(i))
    ensures DownInv(DoElect(s, i))
  {
    hide PastInv, NoLateBids, PeersInv;
    PeerFacts(s, i);
    var p := ToCandidate(s.peers[i]);
    RoleMoveInv(s.peers, s.events, i, p, [Granted(i, VoteRequest(p), p.log)]);
  }

  lemma DeliverVoteDown(s: Cluster, args: VoteArgs, v: nat)
    requires DownInv(s) && Enabled(s, DeliverVote(args, v))
    ensures DownInv(DoDeliverVote(s, args, v))
  {
    hide PastInv, NoLateBids;
    var (p, reply) := OnVote(s.peers[v], args);
    RoleMoveInv(s.peers, s.events, v, p, if reply.granted then [Granted(v, args, s.peers[v].log)] else []);
  }

  lemma TakeVoteDown(s: Cluster, msg: VoteReplyMsg)
    requires DownInv(s) && Enabled(s, TakeVote(msg))
    ensures DownInv(DoTakeVote(s, msg))
  {
    hide PastInv, NoLateBids;
    var s', c := DoTakeVote(s, msg), msg.args.candidate;
    var e, e' := s.elections[KeyOf(msg.args)], s'.elections[KeyOf(msg.args)];
    ReplyCases(s.peers[c], msg.args, e.tally, msg.reply, |s.peers|);
    var more := if e'.tally.done && !e.tally.done then [Won(c, msg.args, e'.counted, s.peers[c].log)] else [];
    assert s'.events == s.events + more;
    RoleMoveInv(s.peers, s.events, c, s'.peers[c], more);
  }

  lemma DeliverAppendDown(s: Cluster, msg: AppendMsg)
    requires DownInv(s) && Enabled(s, DeliverAppend(msg))
    ensures DownInv(DoDeliverAppend(s, msg))
  {
    hide PastInv, NoLateBids;
    var v, was := msg.to, s.peers[msg.to];
    var more := if was.role != Follower && was.term == msg.args.term then [SteppedDown(v, was.term)] else [];
    RoleMoveInv(s.peers, s.events, v, OnAppend(was, msg.args).0, more);
  }

  lemma QuietDown(s: Cluster, v: nat, p: Peer)
    requires DownInv(s) && v < |s.peers| && RoleMove(s.peers[v], p, v, [])
    ensures DownInv(s.(peers := s.peers[v := p]))
  {
    hide PastInv, NoLateBids, RoleMove;
    RoleMoveInv(s.peers, s.events, v, p, []);
    assert s.events + [] == s.events;
  }

  lemma StepDownInv(s: Cluster, step: Step)
    requires PeersInv(s.peers) && DownInv(s) && Enabled(s, step)
    ensures DownInv(Apply(s, step))
  {
    hide PeersInv, PastInv, NoLateBids;
    match step
    case Elect(i) => hide DownInv; ElectDown(s, i);
    case DeliverVote(args, v) => hide DownInv; DeliverVoteDown(s, args, v);
    case TakeVote(msg) => hide DownInv; TakeVoteDown(s, msg);
    case SendAppend(i, to) =>
    case DeliverAppend(msg) => hide DownInv; DeliverAppendDown(s, msg);
    case TakeAppend(msg, commits) =>
      hide DownInv;
      var l := msg.args.leader;
      QuietDown(s, l, OnAppendReply(s.peers[l], msg.args, msg.to, msg.reply, commits));
    case StartCommand(i, command) => hide DownInv; QuietDown(s, i, OnCommand(s.peers[i], command));
  }

  lemma {:induction false} DownRunInv(n: nat, run: seq<Cluster>, k: int)
    requires IsRun(n, run) && 0 <= k < |run|
    ensures DownInv(run[k])
  {
    hide Enabled, Apply, PeersInv;
    if k > 0 {
      hide DownInv;
      DownRunInv(n, run, k - 1);
      assert StepAt(run, k - 1);
      var step :| Enabled(run[k - 1], step) && run[k] == Apply(run[k - 1], step);
      assert PeersInv(run[k - 1].peers) by { RunInv(n, run, k - 1); }
      StepDownInv(run[k - 1], step);
    }
  }

  lemma WinnerFacts(n: nat, run: seq<Cluster>, k: int, x: int)
    requires IsRun(n, run) && 0 <= k < |run| && 0 <= x < |run[k].events| && run[k].events[x].Won?
    ensures PairsOk(run[k].events) && WinOk(n, run[k].events[x], run[k].events[..x])
    ensures run[k].events[x].peer < n
  {
    hide IsRun;
    RunInv(n, run, k);
    hide PairsOk;
    var events, win := run[k].events, run[k].events[x];
    assert WinOk(n, win, events[..x]);
    var j :| 0 <= j < |events[..x]| && events[..x][j] == Granted(win.peer, win.args, win.log);
    assert events[j].Granted? && events[j].voter == win.peer;
    assert GrantsInv(n, events);
  }

  lemma DownIndex(events: seq<Event>, i: int, j: int, v: nat, term: int) returns (d: int)
    requires DownBetween(events, i, j, v, term)
    ensures 0 <= i < d < j <= |events| && events[d] == SteppedDown(v, term)
  {
    d :| 0 <= i < d < j <= |events| && events[d] == SteppedDown(v, term);
  }

  /** Of two winners of one term, one that had the other's vote won after it. */
  lemma VotersWinFirst(n: nat, run: seq<Cluster>, k: int, x: int, y: int)
    requires IsRun(n, run) && 0 <= k < |run|
    requires 0 <= x < |run[k].events| && 0 <= y < |run[k].events| && run[k].events[x].Won? && run[k].events[y].Won?
    requires run[k].events[x].args.term == run[k].events[y].args.term
    requires run[k].events[x].peer != run[k].events[y].peer
    requires run[k].events[y].peer in run[k].events[x].quorum
    ensures y < x
  {
    hide IsRun, DownBetween, HasGrant;
    var events := run[k].events;
    var a, b, term := events[x], events[y], events[x].args.term;
    WinnerFacts(n, run, k, x);
    WinnerFacts(n, run, k, y);
    DownRunInv(n, run, k);
    var i := GrantIndex(events, x, b.peer, a.args);
    var j :| 0 <= j < |events[..y]| && events[..y][j] == Granted(b.peer, b.args, b.log);
    assert events[j] == Granted(b.peer, b.args, b.log);
    assert IsGrant(events, i, b.peer, a.peer, term) && IsGrant(events, j, b.peer, b.peer, term);
    var d := DownIndex(events, if i < j then i else j, if i < j then j else i, b.peer, term);
    assert IsBid(events[j], b.peer, term) && IsBid(events[y], b.peer, term);
  }

  /** Each term has at most one winner, in every run of n peers. */
  ghost predicate OneWinnerPerTerm(n: nat)
  {
    forall run: seq<Cluster>, k, x, y :: IsRun(n, run) && BothWon(run, k, x, y) ==> run[k].events[x].peer == run[k].events[y].peer
  }

  ghost predicate BothWon(run: seq<Cluster>, k: int, x: int, y: int)
  {
    && 0 <= k < |run| && 0 <= x < |run[k].events| && 0 <= y < |run[k].events|
    && run[k].events[x].Won? && run[k].events[y].Won? && run[k].events[x].args.term == run[k].events[y].args.term
  }

  /** With two peers a winner has every vote. */
  lemma SmallIsSafe(n: nat, run: seq<Cluster>, k: int, x: int, y: int)
    requires n <= 2 && IsRun(n, run) && BothWon(run, k, x, y)
    ensures run[k].events[x].peer == run[k].events[y].peer
  {
    hide IsRun;
    WinnerFacts(n, run, k, x);
    WinnerFacts(n, run, k, y);
    hide PairsOk;
    var a, b := run[k].events[x], run[k].events[y];
    if a.peer != b.peer {
      Collections.FullRange(a.quorum, n);
      Collections.FullRange(b.quorum, n);
      VotersWinFirst(n, run, k, x, y);
      VotersWinFirst(n, run, k, y, x);
      assert false;
    }
  }

  /** A term has at most one winner in clusters of at most two peers, and in no larger ones. */
  lemma OneWinnerPerTermIff(n: nat)
    ensures OneWinnerPerTerm(n) <==> n <= 2
  {
    if n <= 2 {
      forall run: seq<Cluster>, k, x, y | IsRun(n, run) && BothWon(run, k, x, y) ensures run[k].events[x].peer == run[k].events[y].peer {
        SmallIsSafe(n, run, k, x, y);
      }
    } else {
      hide IsRun;
      var s := RaftSplitTerm.TwoWinnersInOneTerm(n);
      var run :| IsRun(n, run) && run[|run| - 1] == s;
      var x :| 0 <= x < |s.events| && s.events[x].Won? && s.events[x].peer == 0 && s.events[x].args.term == 2;
      var y :| 0 <= y < |s.events| && s.events[y].Won? && s.events[y].peer == 1 && s.events[y].args.term == 2;
      assert BothWon(run, |run| - 1, x, y);
    }
  }
}
