/** Log terms stay ordered, whatever the network does. */
module RaftLogs {
  import opened RaftPeer
  import opened RaftCluster

  ghost predicate Ordered(log: seq<LogEntry>)
  {
    forall i, j :: 0 <= i < j < |log| ==> log[i].term <= log[j].term
  }

  /** The log has its sentinel of term 0, is ordered by term, and stays within the peer's term. */
  ghost predicate LogOk(log: seq<LogEntry>, term: int)
  {
    && log != [] && log[0].term == 0 && Ordered(log)
    && (forall i :: 0 <= i < |log| ==> log[i].term <= term)
  }

  /** A request carries entries ordered from its previous term up to its own term. */
  ghost predicate AppendOk(args: AppendArgs)
  {
    && 0 <= args.prevIndex && args.prevTerm <= args.term && Ordered(args.entries)
    && (forall i :: 0 <= i < |args.entries| ==> args.prevTerm <= args.entries[i].term <= args.term)
  }

  ghost predicate Inv(s: Cluster)
  {
    && (forall v :: 0 <= v < |s.peers| ==> LogOk(s.peers[v].log, s.peers[v].term))
    && (forall m :: m in s.appends ==> AppendOk(m.args))
  }

  lemma InitInv(n: nat)
    ensures Inv(Init(n))
  {
  }

  lemma LaterTerm(log: seq<LogEntry>, term: int, term': int)
    requires LogOk(log, term) && term <= term'
    ensures LogOk(log, term')
  {
  }

  lemma VoteLog(p: Peer, args: VoteArgs)
    requires LogOk(p.log, p.term)
    ensures LogOk(OnVote(p, args).0.log, OnVote(p, args).0.term)
  {
    LaterTerm(p.log, p.term, OnVote(p, args).0.term);
  }

  lemma VoteReplyLog(p: Peer, args: VoteArgs, tally: Tally, reply: VoteReply, n: nat)
    requires LogOk(p.log, p.term)
    ensures LogOk(OnVoteReply(p, args, tally, reply, n).0.log, OnVoteReply(p, args, tally, reply, n).0.term)
  {
    LaterTerm(p.log, p.term, OnVoteReply(p, args, tally, reply, n).0.term);
  }

  lemma JoinLog(log: seq<LogEntry>, k: int, entries: seq<LogEntry>, term: int)
    requires LogOk(log, term) && 0 <= k < |log| && Ordered(entries)
    requires forall i :: 0 <= i < |entries| ==> log[k].term <= entries[i].term <= term
    ensures LogOk(log[..k + 1] + entries, term)
  {
    var joined := log[..k + 1] + entries;
    forall i, j | 0 <= i < j < |joined| ensures joined[i].term <= joined[j].term {
      if i <= k && j > k {
        assert joined[j] == entries[j - k - 1];
        assert i == k || log[i].term <= log[k].term;
      }
    }
  }

  lemma AppendLog(p: Peer, args: AppendArgs)
    requires LogOk(p.log, p.term) && AppendOk(args)
    ensures LogOk(OnAppend(p, args).0.log, OnAppend(p, args).0.term)
  {
    hide LogOk;
    if p.term <= args.term {
      LaterTerm(p.log, p.term, args.term);
      if p.role == Follower && args.prevIndex < |p.log| && p.log[args.prevIndex].term == args.prevTerm {
        JoinLog(p.log, args.prevIndex, args.entries, args.term);
      }
    }
  }

  lemma AppendReplyLog(p: Peer, args: AppendArgs, i: nat, reply: AppendReply, commits: bool)
    requires LogOk(p.log, p.term) && i < |p.next| && i < |p.matched|
    ensures var q := OnAppendReply(p, args, i, reply, commits);
            LogOk(q.log, q.term)
  {
    LaterTerm(p.log, p.term, OnAppendReply(p, args, i, reply, commits).term);
  }

  lemma CommandLog(p: Peer, command: Command)
    requires LogOk(p.log, p.term)
    ensures LogOk(OnCommand(p, command).log, OnCommand(p, command).term)
  {
    if p.role == Leader {
      var e := [LogEntry(p.term, command)];
      assert p.log[..|p.log| - 1 + 1] == p.log;
      JoinLog(p.log, |p.log| - 1, e, p.term);
    }
  }

  lemma RequestOk(p: Peer, i: nat)
    requires LogOk(p.log, p.term) && i < |p.next| && 1 <= p.next[i] <= |p.log|
    ensures AppendOk(AppendRequest(p, i))
  {
  }

  /** One peer changes. */
  lemma PeerInv(s: Cluster, v: nat, p: Peer, s': Cluster)
    requires Inv(s) && v < |s.peers| && LogOk(p.log, p.term)
    requires s'.peers == s.peers[v := p] && s'.appends == s.appends
    ensures Inv(s')
  {
    hide LogOk, AppendOk;
  }

  lemma StepInv(s: Cluster, step: Step)
    requires Inv(s) && Enabled(s, step)
    ensures Inv(Apply(s, step))
  {
    hide LogOk, AppendOk;
    var s' := Apply(s, step);
    match step
    case Elect(i) =>
      LaterTerm(s.peers[i].log, s.peers[i].term, s.peers[i].term + 1);
      PeerInv(s, i, s'.peers[i], s');
    case DeliverVote(args, v) =>
      VoteLog(s.peers[v], args);
      PeerInv(s, v, s'.peers[v], s');
    case TakeVote(msg) =>
      var c := msg.args.candidate;
      VoteReplyLog(s.peers[c], msg.args, s.elections[KeyOf(msg.args)].tally, msg.reply, |s.peers|);
      PeerInv(s, c, s'.peers[c], s');
    case SendAppend(i, to) => RequestOk(s.peers[i], to);
    case DeliverAppend(msg) =>
      AppendLog(s.peers[msg.to], msg.args);
      PeerInv(s, msg.to, s'.peers[msg.to], s');
    case TakeAppend(msg, commits) =>
      AppendReplyLog(s.peers[msg.args.leader], msg.args, msg.to, msg.reply, commits);
      PeerInv(s, msg.args.leader, s'.peers[msg.args.leader], s');
    case StartCommand(i, command) =>
      CommandLog(s.peers[i], command);
      PeerInv(s, i, s'.peers[i], s');
  }

  /** In every state of every run each log has its sentinel, is ordered by term and stays within
      its peer's term, and each request in flight is ordered from its previous term to its own. */
  lemma {:induction false} LogTermsStayOrdered(n: nat, run: seq<Cluster>, k: int)
    requires IsRun(n, run) && 0 <= k < |run|
    ensures forall v :: 0 <= v < |run[k].peers| ==> LogOk(run[k].peers[v].log, run[k].peers[v].term)
    ensures forall m :: m in run[k].appends ==> AppendOk(m.args)
  {
    hide LogOk, AppendOk, Enabled, Apply;
    if k == 0 {
      InitInv(n);
    } else {
      LogTermsStayOrdered(n, run, k - 1);
      assert StepAt(run, k - 1);
      var step :| Enabled(run[k - 1], step) && run[k] == Apply(run[k - 1], step);
      StepInv(run[k - 1], step);
    }
  }

  // ---------- next indexes ----------

  /** All indexes in the map are below the bound. */
  ghost predicate MapOk(m: map<int, int>, bound: int)
  {
    forall t :: t in m ==> 0 <= m[t] < bound
  }

  /** Next indexes are never below 1; those of a leader, one for each of the n peers, are within
      its log. */
  ghost predicate IndexesOk(n: nat, p: Peer)
  {
    && p.log != [] && MapOk(p.termToIndex, |p.log|)
    && (forall i :: 0 <= i < |p.next| ==> p.next[i] >= 1)
    && (p.role == Leader ==> |p.next| == n && forall i :: 0 <= i < n ==> p.next[i] <= |p.log|)
  }

  ghost predicate IndexInv(s: Cluster)
  {
    && (forall v :: 0 <= v < |s.peers| ==> IndexesOk(|s.peers|, s.peers[v]))
    && (forall m :: m in s.appends ==> MapOk(m.args.termToIndex, m.args.prevIndex + 1 + |m.args.entries|))
  }

  lemma {:induction false} BackOffInRange(m: map<int, int>, t: int, bound: int)
    requires MapOk(m, bound) && bound >= 1
    ensures 1 <= BackOff(m, t) <= bound
    decreases if t > 0 then t else 0
  {
    if t > 0 && Lookup(m, t) == 0 { BackOffInRange(m, t - 1, bound); }
  }

  lemma IndexPeer(s: Cluster, v: nat, p: Peer, s': Cluster)
    requires IndexInv(s) && v < |s.peers| && IndexesOk(|s.peers|, p)
    requires s'.peers == s.peers[v := p] && s'.appends == s.appends
    ensures IndexInv(s')
  {
    hide IndexesOk, MapOk;
  }

  lemma AppendReplyIndexes(n: nat, p: Peer, args: AppendArgs, i: nat, reply: AppendReply, commits: bool)
    requires IndexesOk(n, p) && i < |p.next| && i < |p.matched|
    ensures IndexesOk(n, OnAppendReply(p, args, i, reply, commits))
  {
    BackOffInRange(p.termToIndex, args.prevTerm - 1, |p.log|);
    hide MapOk, BackOff;
  }

  lemma VoteReplyIndexes(p: Peer, args: VoteArgs, tally: Tally, reply: VoteReply, n: nat)
    requires IndexesOk(n, p)
    ensures IndexesOk(n, OnVoteReply(p, args, tally, reply, n).0)
  {
    hide MapOk;
  }

  lemma AppendIndexes(n: nat, p: Peer, args: AppendArgs)
    requires IndexesOk(n, p) && args.prevIndex >= 0 && MapOk(args.termToIndex, args.prevIndex + 1 + |args.entries|)
    ensures IndexesOk(n, OnAppend(p, args).0)
  {
    hide MapOk;
  }

  lemma CommandIndexes(n: nat, p: Peer, command: Command)
    requires IndexesOk(n, p)
    ensures IndexesOk(n, OnCommand(p, command))
  {
  }

  lemma SendIndexes(s: Cluster, i: nat, to: nat)
    requires IndexInv(s) && Enabled(s, SendAppend(i, to))
    ensures IndexInv(DoSendAppend(s, i, to))
  {
    assert IndexesOk(|s.peers|, s.peers[i]);
    hide MapOk;
  }

  lemma IndexStep(s: Cluster, step: Step)
    requires IndexInv(s) && Enabled(s, step)
    ensures IndexInv(Apply(s, step))
  {
    hide MapOk, OnVoteReply, OnAppend, OnAppendReply, OnCommand, BackOff;
    var s', n := Apply(s, step), |s.peers|;
    match step
    case Elect(i) => IndexPeer(s, i, s'.peers[i], s');
    case DeliverVote(args, v) => IndexPeer(s, v, s'.peers[v], s');
    case TakeVote(msg) =>
      hide IndexesOk;
      var c := msg.args.candidate;
      VoteReplyIndexes(s.peers[c], msg.args, s.elections[KeyOf(msg.args)].tally, msg.reply, n);
      IndexPeer(s, c, s'.peers[c], s');
    case SendAppend(i, to) =>
      hide IndexInv;
      SendIndexes(s, i, to);
    case DeliverAppend(msg) =>
      hide IndexesOk;
      AppendIndexes(n, s.peers[msg.to], msg.args);
      IndexPeer(s, msg.to, s'.peers[msg.to], s');
    case TakeAppend(msg, commits) =>
      hide IndexesOk;
      var l := msg.args.leader;
      AppendReplyIndexes(n, s.peers[l], msg.args, msg.to, msg.reply, commits);
      IndexPeer(s, l, s'.peers[l], s');
    case StartCommand(i, command) =>
      hide IndexesOk;
      CommandIndexes(n, s.peers[i], command);
      IndexPeer(s, i, s'.peers[i], s');
  }

  lemma {:induction false} IndexRunInv(n: nat, run: seq<Cluster>, k: int)
    requires IsRun(n, run) && 0 <= k < |run|
    ensures IndexInv(run[k]) && |run[k].peers| == n
  {
    hide Enabled, Apply;
    if k > 0 {
      hide IndexInv;
      IndexRunInv(n, run, k - 1);
      assert StepAt(run, k - 1);
      var step :| Enabled(run[k - 1], step) && run[k] == Apply(run[k - 1], step);
      IndexStep(run[k - 1], step);
      SameSize(run[k - 1], step);
    }
  }

  lemma SameSize(s: Cluster, step: Step)
    requires Enabled(s, step)
    ensures |Apply(s, step).peers| == |s.peers|
  {
  }

  /** In every state of every run no next index is below 1, and a leader can build a request for
      every other peer. */
  lemma LeaderCanSend(n: nat, run: seq<Cluster>, k: int, v: nat)
    requires IsRun(n, run) && 0 <= k < |run| && v < |run[k].peers|
    ensures forall i :: 0 <= i < |run[k].peers[v].next| ==> run[k].peers[v].next[i] >= 1
    ensures run[k].peers[v].role == Leader ==> forall i: nat :: i < n && i != v ==> Enabled(run[k], SendAppend(v, i))
  {
    hide IsRun, MapOk;
    IndexRunInv(n, run, k);
    assert IndexesOk(n, run[k].peers[v]);
  }
}
