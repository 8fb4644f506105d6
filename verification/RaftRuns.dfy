/** Building runs of the cluster: elections in which everybody asked grants the vote. */
module RaftRuns {
  import opened RaftPeer
  import opened RaftCluster

  ghost predicate Reachable(n: nat, s: Cluster)
  {
    exists run :: IsRun(n, run) && run[|run| - 1] == s
  }

  lemma ReachInit(n: nat)
    ensures Reachable(n, Init(n))
  {
    assert IsRun(n, [Init(n)]);
  }

  lemma ReachNext(n: nat, s: Cluster, step: Step)
    requires Reachable(n, s) && Enabled(s, step)
    ensures Reachable(n, Apply(s, step))
  {
    hide Enabled, Apply;
    var run :| IsRun(n, run) && run[|run| - 1] == s;
    var more := run + [Apply(s, step)];
    forall k | 0 <= k < |more| - 1 ensures StepAt(more, k) {
      if k < |run| - 1 {
        assert StepAt(run, k);
        assert more[k] == run[k] && more[k + 1] == run[k + 1];
      } else {
        assert more[k] == s && more[k + 1] == Apply(s, step);
        assert Follows(more[k], more[k + 1]);
      }
    }
    assert IsRun(n, more) && more[|more| - 1] == Apply(s, step);
  }

  // ---------- what is kept ----------

  /** The election of another candidate or term is as it was, and events have only been added. */
  ghost predicate Keeps(s: Cluster, s': Cluster, args: VoteArgs)
  {
    && |s'.peers| == |s.peers| && s.events <= s'.events
    && (Asked(s, args) ==> Asked(s', args) && s'.elections[KeyOf(args)] == s.elections[KeyOf(args)])
  }

  ghost predicate KeepsOthers(s: Cluster, s': Cluster, args: VoteArgs)
  {
    forall other :: KeyOf(other) != KeyOf(args) ==> Keeps(s, s', other)
  }

  lemma KeepsOn(a: Cluster, b: Cluster, c: Cluster, args: VoteArgs)
    requires KeepsOthers(a, b, args) && KeepsOthers(b, c, args)
    ensures KeepsOthers(a, c, args)
  {
    forall other | KeyOf(other) != KeyOf(args) ensures Keeps(a, c, other) {
      assert Keeps(a, b, other) && Keeps(b, c, other);
    }
  }

  ghost predicate WonBy(events: seq<Event>, c: nat, term: int)
  {
    exists i :: 0 <= i < |events| && events[i].Won? && events[i].peer == c && events[i].args.term == term
  }

  lemma WonStays(events: seq<Event>, all: seq<Event>, c: nat, term: int)
    requires WonBy(events, c, term) && events <= all
    ensures WonBy(all, c, term)
  {
    var i :| 0 <= i < |events| && events[i].Won? && events[i].peer == c && events[i].args.term == term;
    assert all[i] == events[i];
  }

  // ---------- starting an election ----------

  /** Everybody else was asked and nobody has been counted. */
  ghost predicate Running(s: Cluster, args: VoteArgs)
  {
    && Asked(s, args) && s.elections[KeyOf(args)].tally == Tally(1, false)
    && forall v: nat :: v < |s.peers| && v != args.candidate ==> v in s.elections[KeyOf(args)].waiting
  }

  lemma StillRunning(s: Cluster, s': Cluster, args: VoteArgs)
    requires Keeps(s, s', args) && Running(s, args)
    ensures Running(s', args)
  {
  }

  lemma ElectOne(n: nat, s: Cluster, i: nat) returns (s': Cluster)
    requires Reachable(n, s) && i < |s.peers| == n && s.peers[i].log != [] && s.peers[i].me == i
    ensures Reachable(n, s') && s'.peers == s.peers[i := ToCandidate(s.peers[i])]
    ensures Running(s', VoteRequest(ToCandidate(s.peers[i])))
    ensures KeepsOthers(s, s', VoteRequest(ToCandidate(s.peers[i])))
  {
    ReachNext(n, s, Elect(i));
    hide Reachable;
    s' := DoElect(s, i);
  }

  // ---------- everybody from lo to hi votes ----------

  predicate WouldGrant(p: Peer, args: VoteArgs)
  {
    && p.log != [] && UpToDate(args.lastIndex, args.lastTerm, p.log)
    && (p.term < args.term || (p.term == args.term && p.votedFor == NOBODY))
  }

  function Voting(p: Peer, args: VoteArgs): Peer
  {
    p.(term := args.term, votedFor := args.candidate)
  }

  function AllVoting(peers: seq<Peer>, args: VoteArgs, lo: int, hi: int): (r: seq<Peer>)
    ensures |r| == |peers|
    ensures forall v :: 0 <= v < |r| ==> r[v] == if lo <= v < hi then Voting(peers[v], args) else peers[v]
  {
    seq(|peers|, v requires 0 <= v < |peers| => if lo <= v < hi then Voting(peers[v], args) else peers[v])
  }

  function Ballot(args: VoteArgs, v: nat): VoteReplyMsg
  {
    VoteReplyMsg(args, v, VoteReply(args.term, true))
  }

  lemma VoteOne(n: nat, s: Cluster, args: VoteArgs, v: nat) returns (s': Cluster)
    requires Reachable(n, s) && v < |s.peers| == n && v != args.candidate && Asked(s, args) && WouldGrant(s.peers[v], args)
    ensures Reachable(n, s') && s'.peers == s.peers[v := Voting(s.peers[v], args)]
    ensures s'.elections == s.elections && s'.voteReplies == s.voteReplies + {Ballot(args, v)} && s.events <= s'.events
  {
    ReachNext(n, s, DeliverVote(args, v));
    hide Reachable;
    s' := DoDeliverVote(s, args, v);
  }

  lemma {:induction false} VoteAll(n: nat, s: Cluster, args: VoteArgs, lo: nat, hi: nat) returns (s': Cluster)
    requires Reachable(n, s) && lo <= hi <= n == |s.peers| && !(lo <= args.candidate < hi) && Asked(s, args)
    requires forall v :: lo <= v < hi ==> WouldGrant(s.peers[v], args)
    ensures Reachable(n, s') && s'.peers == AllVoting(s.peers, args, lo, hi)
    ensures s'.elections == s.elections && s.events <= s'.events
    ensures forall v: nat :: lo <= v < hi ==> Ballot(args, v) in s'.voteReplies
    decreases hi
  {
    hide Reachable, WouldGrant, Voting;
    if lo == hi {
      s' := s;
    } else {
      var t := VoteAll(n, s, args, lo, hi - 1);
      s' := VoteOne(n, t, args, hi - 1);
    }
  }

  // ---------- counting ----------

  /** The candidate after so many votes. */
  function Elected(p: Peer, n: nat, votes: nat): Peer
  {
    if votes > n / 2 then ToLeader(p, n) else p
  }

  /** The votes below k are counted, and the majority is noticed when reached. */
  ghost predicate Counting(n: nat, s: Cluster, args: VoteArgs, p: Peer, lo: nat, k: nat, hi: nat)
  {
    && lo <= k <= hi <= n == |s.peers| && args.candidate < n
    && Asked(s, args) && s.elections[KeyOf(args)].tally == Tally(1 + k - lo, 1 + k - lo > n / 2)
    && (forall v: nat :: k <= v < hi ==> v in s.elections[KeyOf(args)].waiting && Ballot(args, v) in s.voteReplies)
    && s.peers[args.candidate] == Elected(p, n, 1 + k - lo)
    && (1 + k - lo > n / 2 ==> WonBy(s.events, args.candidate, args.term))
  }

  lemma CountOne(n: nat, s: Cluster, args: VoteArgs, p: Peer, lo: nat, k: nat, hi: nat) returns (s': Cluster)
    requires Reachable(n, s) && Counting(n, s, args, p, lo, k, hi) && k < hi
    requires p.term == args.term && p.role == Candidate
    ensures Reachable(n, s') && Counting(n, s', args, p, lo, k + 1, hi)
    ensures s'.peers == s.peers[args.candidate := Elected(p, n, 2 + k - lo)] && KeepsOthers(s, s', args)
  {
    var votes := 1 + k - lo;
    ReachNext(n, s, TakeVote(Ballot(args, k)));
    hide Reachable;
    s' := DoTakeVote(s, Ballot(args, k));
    assert OnVoteReply(Elected(p, n, votes), args, Tally(votes, votes > n / 2), VoteReply(args.term, true), n)
        == (Elected(p, n, votes + 1), Tally(votes + 1, votes + 1 > n / 2));
    hide OnVoteReply, ToLeader;
    if votes > n / 2 {
      WonStays(s.events, s'.events, args.candidate, args.term);
    } else if votes + 1 > n / 2 {
      assert s'.events[|s.events|].Won?;
    }
  }

  lemma {:induction false} CountAll(n: nat, s: Cluster, args: VoteArgs, p: Peer, lo: nat, k: nat, hi: nat) returns (s': Cluster)
    requires Reachable(n, s) && Counting(n, s, args, p, lo, k, hi)
    requires p.term == args.term && p.role == Candidate
    ensures Reachable(n, s') && Counting(n, s', args, p, lo, hi, hi)
    ensures s'.peers == s.peers[args.candidate := Elected(p, n, 1 + hi - lo)] && KeepsOthers(s, s', args)
    decreases hi - k
  {
    hide Reachable, Elected, WonBy;
    if k == hi {
      s' := s;
    } else {
      var t := CountOne(n, s, args, p, lo, k, hi);
      s' := CountAll(n, t, args, p, lo, k + 1, hi);
      KeepsOn(s, t, s', args);
    }
  }

  /** A candidate that is granted the votes from lo to hi, a majority with its own, wins. */
  lemma Landslide(n: nat, s: Cluster, args: VoteArgs, lo: nat, hi: nat) returns (s': Cluster)
    requires n >= 2 && Reachable(n, s) && lo <= hi <= n == |s.peers| && 1 + hi - lo > n / 2
    requires args.candidate < n && !(lo <= args.candidate < hi) && Running(s, args)
    requires s.peers[args.candidate].term == args.term && s.peers[args.candidate].role == Candidate
    requires forall v :: lo <= v < hi ==> WouldGrant(s.peers[v], args)
    ensures Reachable(n, s') && WonBy(s'.events, args.candidate, args.term) && KeepsOthers(s, s', args)
    ensures s'.peers == AllVoting(s.peers, args, lo, hi)[args.candidate := ToLeader(s.peers[args.candidate], n)]
  {
    hide Reachable, WouldGrant, ToLeader;
    var t := VoteAll(n, s, args, lo, hi);
    var p := s.peers[args.candidate];
    assert Counting(n, t, args, p, lo, lo, hi);
    s' := CountAll(n, t, args, p, lo, lo, hi);
    KeepsOn(s, t, s', args);
  }
}
