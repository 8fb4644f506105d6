/** A peer that was a leader when its heartbeat started may have lost its role, and part of its
    log, before the request is built; then the request cannot be built. */
module RaftTruncated {
  import opened RaftPeer
  import opened RaftCluster
  import opened RaftRuns
  import opened RaftLeaders

  /** Peer v can build a request for peer i, if it has ever been a leader. */
  predicate CanBuild(p: Peer, i: nat)
  {
    i < |p.next| ==> 1 <= p.next[i] <= |p.log|
  }

  /** In every state of every run of n peers every request can be built. */
  ghost predicate RequestsCanBeBuilt(n: nat)
  {
    forall s, v: nat, i: nat :: Reachable(n, s) && v < |s.peers| && i < |s.peers| && i != v ==> CanBuild(s.peers[v], i)
  }

  function Heartbeat(from: nat): AppendArgs
  {
    AppendArgs(2, from, 0, 0, [], 0, map[0 := 0])
  }

  /** Both rivals send a heartbeat. */
  lemma BothSend(n: nat, s: Cluster) returns (s': Cluster)
    requires Reachable(n, s) && Rivals(n, s)
    ensures Reachable(n, s') && s'.peers == s.peers
    ensures AppendMsg(Heartbeat(0), n - 1) in s'.appends && AppendMsg(Heartbeat(n - 1), 0) in s'.appends
  {
    assert AppendRequest(s.peers[0], n - 1) == Heartbeat(0) && AppendRequest(s.peers[n - 1], 0) == Heartbeat(n - 1);
    ReachNext(n, s, SendAppend(0, n - 1));
    var t := DoSendAppend(s, 0, n - 1);
    ReachNext(n, t, SendAppend(n - 1, 0));
    hide Reachable;
    s' := DoSendAppend(t, n - 1, 0);
  }

  /** The rival steps down and says it has appended; meanwhile the log of peer 0 has grown, and
      the answer is taken for the longer log. */
  lemma AnswerComesLate(n: nat, s: Cluster) returns (s': Cluster)
    requires Reachable(n, s) && Rivals(n, s) && AppendMsg(Heartbeat(0), n - 1) in s.appends
    ensures Reachable(n, s') && |s'.peers| == n && s'.appends == s.appends
    ensures var p := s'.peers[0];
            p.role == Leader && p.term == 2 && |p.log| == 2 && p.log[0] == LogEntry(0, "") && |p.next| == n && p.next[n - 1] == 2
  {
    var msg := AppendMsg(Heartbeat(0), n - 1);
    ReachNext(n, s, DeliverAppend(msg));
    var a := DoDeliverAppend(s, msg);
    var answer := AppendReplyMsg(Heartbeat(0), n - 1, AppendReply(2, true));
    assert answer in a.appendReplies && a.peers[0] == s.peers[0];
    ReachNext(n, a, StartCommand(0, "x"));
    var b := DoStartCommand(a, 0, "x");
    assert |b.peers[0].log| == 2;
    ReachNext(n, b, TakeAppend(answer, 2 > n / 2));
    hide Reachable;
    s' := DoTakeAppend(b, answer, 2 > n / 2);
  }

  /** The rival's heartbeat, delivered twice: first peer 0 steps down, then its log is cut. */
  lemma LogIsCut(n: nat, s: Cluster) returns (s': Cluster)
    requires n >= 2 && Reachable(n, s) && |s.peers| == n && AppendMsg(Heartbeat(n - 1), 0) in s.appends
    requires var p := s.peers[0];
             p.role == Leader && p.term == 2 && |p.log| == 2 && p.log[0] == LogEntry(0, "") && |p.next| == n && p.next[n - 1] == 2
    ensures Reachable(n, s') && |s'.peers| == n && !CanBuild(s'.peers[0], n - 1)
  {
    var msg := AppendMsg(Heartbeat(n - 1), 0);
    ReachNext(n, s, DeliverAppend(msg));
    var t := DoDeliverAppend(s, msg);
    assert t.peers[0] == ToFollower(s.peers[0], 2);
    ReachNext(n, t, DeliverAppend(msg));
    hide Reachable;
    s' := DoDeliverAppend(t, msg);
  }

  /** Every request can be built if and only if there is at most one peer. */
  lemma RequestsCanBeBuiltIff(n: nat)
    ensures RequestsCanBeBuilt(n) <==> n <= 1
  {
    hide Reachable;
    if n <= 1 {
      forall s | Reachable(n, s) ensures |s.peers| <= 1 {
        ReachableSize(n, s);
      }
    } else {
      var a := RivalLeaders(n);
      var b := BothSend(n, a);
      var c := AnswerComesLate(n, b);
      var d := LogIsCut(n, c);
    }
  }
}
