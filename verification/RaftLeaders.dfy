/** Leaders, as the peers themselves see it. A vote request of a higher term raises a leader's term
    without taking its role away, so a peer can be a leader of a term it did not win. */
module RaftLeaders {
  import opened RaftPeer
  import opened RaftCluster
  import opened RaftRuns
  import opened RaftElection
  import RaftClusterSize
  import opened RaftSplitTerm

  /** The step from s to s' is a vote request of this higher term that reaches leader v. */
  ghost predicate RaisesLeader(s: Cluster, s': Cluster, v: nat, term: int)
  {
    exists args ::
      && Enabled(s, DeliverVote(args, v)) && s' == Apply(s, DeliverVote(args, v))
      && s.peers[v].role == Leader && s.peers[v].term < args.term == term
  }

  ghost predicate RaisedAt(run: seq<Cluster>, j: int, v: nat, term: int)
    requires 0 <= j < |run| - 1
  {
    RaisesLeader(run[j], run[j + 1], v, term)
  }

  /** A leader's term rises without its role being lost in one kind of step only. */
  lemma LeaderRaisedIff(s: Cluster, step: Step, v: nat)
    requires Enabled(s, step) && v < |s.peers| && s.peers[v].role == Leader
    ensures var (p, p') := (s.peers[v], Apply(s, step).peers[v]);
            (p'.role == Leader && p'.term != p.term) <==> (step.DeliverVote? && step.voter == v && step.args.term > p.term)
  {
    match step
    case Elect(i) =>
    case DeliverVote(args, w) =>
    case TakeVote(msg) =>
    case SendAppend(i, to) =>
    case DeliverAppend(msg) =>
    case TakeAppend(msg, commits) =>
    case StartCommand(i, command) =>
  }

  lemma TakeVoteLeader(s: Cluster, msg: VoteReplyMsg)
    requires Enabled(s, TakeVote(msg))
    requires var c := msg.args.candidate; s.peers[c].role != Leader && DoTakeVote(s, msg).peers[c].role == Leader
    ensures var c := msg.args.candidate; WonBy(DoTakeVote(s, msg).events, c, DoTakeVote(s, msg).peers[c].term)
  {
    var s' := DoTakeVote(s, msg);
    assert s'.events[|s.events|].Won?;
  }

  lemma EventsGrow(s: Cluster, step: Step)
    requires Enabled(s, step)
    ensures |Apply(s, step).peers| == |s.peers| && s.events <= Apply(s, step).events
  {
  }

  /** Whoever is a leader after a step was one of that term before, or wins it in this step, or
      is raised to it. */
  lemma LeaderStep(s: Cluster, step: Step, v: nat)
    requires Enabled(s, step) && v < |s.peers| && Apply(s, step).peers[v].role == Leader
    ensures var (p, s') := (s.peers[v], Apply(s, step));
            || (p.role == Leader && p.term == s'.peers[v].term)
            || WonBy(s'.events, v, s'.peers[v].term)
            || RaisesLeader(s, s', v, s'.peers[v].term)
  {
    if s.peers[v].role == Leader {
      LeaderRaisedIff(s, step, v);
      hide WonBy;
      if s.peers[v].term != Apply(s, step).peers[v].term {
        assert step == DeliverVote(step.args, v);
      }
    } else {
      hide WonBy, RaisesLeader;
      assert step.TakeVote? && step.msg.args.candidate == v;
      TakeVoteLeader(s, step.msg);
    }
  }

  /** In every run a leader has won its term, or a vote request raised it to that term while it
      was a leader. */
  lemma {:induction false} LeaderWonOrRaised(n: nat, run: seq<Cluster>, k: int, v: nat)
    requires IsRun(n, run) && 0 <= k < |run| && v < |run[k].peers| && run[k].peers[v].role == Leader
    ensures var term := run[k].peers[v].term;
            WonBy(run[k].events, v, term) || exists j :: 0 <= j < k && RaisedAt(run, j, v, term)
  {
    hide WonBy, RaisesLeader;
    if k > 0 {
      hide Enabled, Apply;
      assert StepAt(run, k - 1);
      var step :| Enabled(run[k - 1], step) && run[k] == Apply(run[k - 1], step);
      var s, s', term := run[k - 1], run[k], run[k].peers[v].term;
      EventsGrow(s, step);
      LeaderStep(s, step, v);
      if s.peers[v].role == Leader && s.peers[v].term == term {
        LeaderWonOrRaised(n, run, k - 1, v);
        if WonBy(s.events, v, term) {
          WonStays(s.events, s'.events, v, term);
        }
      } else if RaisesLeader(s, s', v, term) {
        assert RaisedAt(run, k - 1, v, term);
      }
    }
  }

  /** Nobody was raised to this term as a leader, up to state k. */
  ghost predicate NobodyRaised(run: seq<Cluster>, k: int, term: int)
    requires 0 <= k < |run|
  {
    forall j, v :: 0 <= j < k ==> !RaisedAt(run, j, v, term)
  }

  /** Without such a step the leaders of a term are its winners. */
  lemma LeadersAreWinners(n: nat, run: seq<Cluster>, k: int, v: nat)
    requires IsRun(n, run) && 0 <= k < |run| && v < |run[k].peers| && run[k].peers[v].role == Leader
    requires NobodyRaised(run, k, run[k].peers[v].term)
    ensures WonBy(run[k].events, v, run[k].peers[v].term)
  {
    hide IsRun, WonBy;
    LeaderWonOrRaised(n, run, k, v);
  }

  /** So a term without such a step has at most one leader, if nobody steps down within the term
      or there are at most two peers. */
  lemma OneLeader(n: nat, run: seq<Cluster>, k: int, v: nat, w: nat)
    requires IsRun(n, run) && 0 <= k < |run| && v < |run[k].peers| && w < |run[k].peers|
    requires run[k].peers[v].role == Leader && run[k].peers[w].role == Leader
    requires run[k].peers[v].term == run[k].peers[w].term
    requires NobodyRaised(run, k, run[k].peers[v].term)
    requires n <= 2 || forall i :: 0 <= i < |run[k].events| && run[k].events[i].SteppedDown? ==>
      run[k].events[i].term != run[k].peers[v].term
    ensures v == w
  {
    hide IsRun, NobodyRaised;
    LeadersAreWinners(n, run, k, v);
    LeadersAreWinners(n, run, k, w);
    var events, term := run[k].events, run[k].peers[v].term;
    var x :| 0 <= x < |events| && events[x].Won? && events[x].peer == v && events[x].args.term == term;
    var y :| 0 <= y < |events| && events[y].Won? && events[y].peer == w && events[y].args.term == term;
    if n <= 2 {
      RaftClusterSize.SmallIsSafe(n, run, k, x, y);
    } else {
      OneWinner(n, run, k, x, y);
    }
  }

  // ---------- the clusters with one leader per term ----------

  ghost predicate TwoLeaders(s: Cluster, v: nat, w: nat)
  {
    && v < |s.peers| && w < |s.peers| && v != w
    && s.peers[v].role == Leader && s.peers[w].role == Leader && s.peers[v].term == s.peers[w].term
  }

  /** No state of any run of n peers has two leaders of one term. */
  ghost predicate OneLeaderPerTerm(n: nat)
  {
    forall s, v, w :: Reachable(n, s) ==> !TwoLeaders(s, v, w)
  }

  /** Peers 0 and n - 1 as two leaders of term 2. */
  ghost predicate Rivals(n: nat, s: Cluster)
  {
    && |s.peers| == n >= 2
    && s.peers[0] == ToLeader(At(0, 1, 0, Candidate), n).(term := 2, votedFor := n - 1)
    && s.peers[n - 1] == ToLeader(At(n - 1, 2, n - 1, Candidate), n)
  }

  /** The first leader grants its rival the vote for the next term and stays a leader. */
  lemma RivalLeaders(n: nat) returns (s: Cluster)
    requires n >= 2
    ensures Reachable(n, s) && Rivals(n, s)
  {
    hide Reachable, Running, WonBy, Keeps;
    ReachInit(n);
    var a := ElectOne(n, Init(n), 0);
    assert VoteRequest(ToCandidate(Fresh(0))) == Request(0, 1);
    var b := Landslide(n, a, Request(0, 1), 1, n);
    var c := ElectOne(n, b, n - 1);
    assert VoteRequest(ToCandidate(b.peers[n - 1])) == Request(n - 1, 2);
    s := Landslide(n, c, Request(n - 1, 2), 0, n - 1);
  }

  lemma {:induction false} ReachableSize(n: nat, s: Cluster)
    requires Reachable(n, s)
    ensures |s.peers| == n
  {
    var run :| IsRun(n, run) && run[|run| - 1] == s;
    hide IsRun;
    RunInv(n, run, |run| - 1);
  }

  /** A term has at most one leader in every state if and only if there is at most one peer. */
  lemma OneLeaderPerTermIff(n: nat)
    ensures OneLeaderPerTerm(n) <==> n <= 1
  {
    hide Reachable;
    if n <= 1 {
      forall s, v: nat, w: nat | Reachable(n, s) ensures !TwoLeaders(s, v, w) {
        ReachableSize(n, s);
      }
    } else {
      var s := RivalLeaders(n);
      assert TwoLeaders(s, 0, n - 1);
    }
  }
}
