/** With three peers or more, two of them can win one term. A candidate whose term is raised by a
    vote request stays a candidate; the winner's append then makes it give up its vote, and it
    votes again in the same term. */
module RaftSplitTerm {
  import opened RaftPeer
  import opened RaftCluster
  import opened RaftRuns

  function At(me: nat, term: int, votedFor: int, role: Role): Peer
  {
    Fresh(me).(term := term, votedFor := votedFor, role := role)
  }

  function Request(c: nat, term: int): VoteArgs
  {
    VoteArgs(term, c, 0, 0)
  }

  /** Nothing about the two candidates' elections in term 2 has changed. */
  ghost predicate KeepsBoth(s: Cluster, s': Cluster)
  {
    Keeps(s, s', Request(0, 2)) && Keeps(s, s', Request(1, 2))
  }

  /** Peers 0 and 1 ask for votes in term 2. */
  lemma TwoCandidates(n: nat) returns (s: Cluster)
    requires n >= 2
    ensures Reachable(n, s) && Running(s, Request(0, 2)) && Running(s, Request(1, 2))
    ensures s.peers == Init(n).peers[0 := At(0, 2, 0, Candidate)][1 := At(1, 2, 1, Candidate)]
  {
    hide Reachable, Running, Keeps;
    ReachInit(n);
    var a := ElectOne(n, Init(n), 0);
    var b := ElectOne(n, a, 0);
    assert VoteRequest(ToCandidate(a.peers[0])) == Request(0, 2);
    var c := ElectOne(n, b, 1);
    StillRunning(b, c, Request(0, 2));
    s := ElectOne(n, c, 1);
    assert VoteRequest(ToCandidate(c.peers[1])) == Request(1, 2);
    StillRunning(c, s, Request(0, 2));
  }

  /** The peers from 2 up to k become candidates of term 1. */
  lemma {:induction false} OthersRun(n: nat, s: Cluster, k: nat) returns (s': Cluster)
    requires 2 <= k <= n == |s.peers| && Reachable(n, s) && forall v :: 2 <= v < n ==> s.peers[v] == Fresh(v)
    ensures Reachable(n, s') && |s'.peers| == n && KeepsBoth(s, s')
    ensures forall v :: 0 <= v < n ==> s'.peers[v] == if 2 <= v < k then At(v, 1, v, Candidate) else s.peers[v]
    decreases k
  {
    hide Reachable;
    if k == 2 {
      s' := s;
    } else {
      var t := OthersRun(n, s, k - 1);
      hide Keeps;
      s' := ElectOne(n, t, k - 1);
      KeepsAlong(s, t, s', VoteRequest(ToCandidate(t.peers[k - 1])));
    }
  }

  lemma KeepsAlong(a: Cluster, b: Cluster, c: Cluster, args: VoteArgs)
    requires KeepsBoth(a, b) && KeepsOthers(b, c, args) && args.candidate >= 2
    ensures KeepsBoth(a, c)
  {
    assert Keeps(b, c, Request(0, 2)) && Keeps(b, c, Request(1, 2));
  }

  /** The new leader's heartbeat makes a peer that is still a candidate give up its vote. */
  lemma StepDownOne(n: nat, s: Cluster, v: nat) returns (s': Cluster)
    requires 2 <= v < n == |s.peers| && Reachable(n, s)
    requires s.peers[0] == ToLeader(At(0, 2, 0, Candidate), n) && s.peers[v] == At(v, 2, 0, Candidate)
    ensures Reachable(n, s') && s'.peers == s.peers[v := At(v, 2, NOBODY, Follower)]
    ensures s'.elections == s.elections && s.events <= s'.events
  {
    var args := AppendArgs(2, 0, 0, 0, [], 0, map[0 := 0]);
    assert AppendRequest(s.peers[0], v) == args;
    ReachNext(n, s, SendAppend(0, v));
    var t := s.(appends := s.appends + {AppendMsg(args, v)});
    assert t == DoSendAppend(s, 0, v);
    ReachNext(n, t, DeliverAppend(AppendMsg(args, v)));
    hide Reachable;
    s' := DoDeliverAppend(t, AppendMsg(args, v));
    assert OnAppend(s.peers[v], args).0 == At(v, 2, NOBODY, Follower);
  }

  lemma {:induction false} OthersStepDown(n: nat, s: Cluster, k: nat) returns (s': Cluster)
    requires 2 <= k <= n == |s.peers| && Reachable(n, s) && s.peers[0] == ToLeader(At(0, 2, 0, Candidate), n)
    requires forall v :: 2 <= v < n ==> s.peers[v] == At(v, 2, 0, Candidate)
    ensures Reachable(n, s') && |s'.peers| == n && s'.elections == s.elections && s.events <= s'.events
    ensures forall v :: 0 <= v < n ==> s'.peers[v] == if 2 <= v < k then At(v, 2, NOBODY, Follower) else s.peers[v]
    decreases k
  {
    hide Reachable;
    if k == 2 {
      s' := s;
    } else {
      var t := OthersStepDown(n, s, k - 1);
      s' := StepDownOne(n, t, k - 1);
    }
  }

  /** In every cluster of three or more, peers 0 and 1 can both win term 2. */
  lemma TwoWinnersInOneTerm(n: nat) returns (s: Cluster)
    requires n >= 3
    ensures Reachable(n, s) && WonBy(s.events, 0, 2) && WonBy(s.events, 1, 2)
  {
    hide Reachable, Running, WonBy, Keeps;
    var a := TwoCandidates(n);
    var b := OthersRun(n, a, n);
    StillRunning(a, b, Request(0, 2));
    StillRunning(a, b, Request(1, 2));
    var c := Landslide(n, b, Request(0, 2), 2, n);
    StillRunning(b, c, Request(1, 2));
    var d := OthersStepDown(n, c, n);
    assert Running(d, Request(1, 2)) by { SameElections(c, d, Request(1, 2)); }
    s := Landslide(n, d, Request(1, 2), 2, n);
    assert WonBy(s.events, 0, 2) by { EventsGrow(c, d, s); WonStays(c.events, s.events, 0, 2); }
  }

  lemma SameElections(s: Cluster, s': Cluster, args: VoteArgs)
    requires Running(s, args) && s'.elections == s.elections && |s'.peers| == |s.peers|
    ensures Running(s', args)
  {
  }

  lemma EventsGrow(a: Cluster, b: Cluster, c: Cluster)
    requires a.events <= b.events && KeepsOthers(b, c, Request(1, 2))
    ensures a.events <= c.events
  {
    assert Keeps(b, c, Request(0, 2));
  }
}
