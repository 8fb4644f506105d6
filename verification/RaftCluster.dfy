/** A cluster of Raft peers. Each locked region is one step; requests and replies may be lost,
    delayed, reordered and, for requests, delivered again. What happened is kept as a list of
    events, so that safety can be stated about whole runs. */
module RaftCluster {
  import opened Collections
  import opened RaftPeer

  /** Granted: `voter` granted the request, having this log; a candidate's vote for itself is a
      grant too. SteppedDown: a peer that was not a follower met a request of its own term and
      gave up its vote. Won: the peer passed the winner check with these votes and this log. */
  datatype Event =
    | Granted(voter: nat, args: VoteArgs, log: seq<LogEntry>)
    | SteppedDown(peer: nat, term: int)
    | Won(peer: nat, args: VoteArgs, quorum: set<nat>, log: seq<LogEntry>)

  /** One election: the candidate's counter, whose replies it has counted, from whom a reply
      may still come, and the log the request was made with. */
  datatype Election = Election(args: VoteArgs, tally: Tally, counted: set<nat>, waiting: set<nat>, log: seq<LogEntry>)

  datatype VoteReplyMsg = VoteReplyMsg(args: VoteArgs, voter: nat, reply: VoteReply)
  datatype AppendMsg = AppendMsg(args: AppendArgs, to: nat)
  datatype AppendReplyMsg = AppendReplyMsg(args: AppendArgs, to: nat, reply: AppendReply)

  /** Elections by candidate and term. */
  datatype Cluster = Cluster(
    peers: seq<Peer>, elections: map<(nat, int), Election>, voteReplies: set<VoteReplyMsg>,
    appends: set<AppendMsg>, appendReplies: set<AppendReplyMsg>, events: seq<Event>)

  function Init(n: nat): Cluster
  {
    Cluster(seq(n, i requires 0 <= i < n => Fresh(i)), map[], {}, {}, {}, [])
  }

  // ---------- the steps ----------

  datatype Step =
    | Elect(i: nat)
    | DeliverVote(args: VoteArgs, voter: nat)
    | TakeVote(msg: VoteReplyMsg)
    | SendAppend(i: nat, to: nat)
    | DeliverAppend(append: AppendMsg)
    | TakeAppend(answer: AppendReplyMsg, commits: bool)
    | StartCommand(i: nat, command: Command)

  function KeyOf(args: VoteArgs): (nat, int)
  {
    (args.candidate, args.term)
  }

  predicate Asked(s: Cluster, args: VoteArgs)
  {
    KeyOf(args) in s.elections && s.elections[KeyOf(args)].args == args
  }

  predicate Enabled(s: Cluster, step: Step)
  {
    match step
    // The timer checks the role before the election starts, so any peer may start one.
    case Elect(i) => i < |s.peers| && s.peers[i].log != []
    case DeliverVote(args, v) => Asked(s, args) && v < |s.peers| && v != args.candidate && s.peers[v].log != []
    case TakeVote(msg) =>
      && msg in s.voteReplies && Asked(s, msg.args) && msg.args.candidate < |s.peers|
      && msg.voter in s.elections[KeyOf(msg.args)].waiting
    // The heartbeat checks the role before the request is built, so a former leader may build one.
    case SendAppend(i, to) =>
      i < |s.peers| && to < |s.peers| && to != i && to < |s.peers[i].next| && 1 <= s.peers[i].next[to] <= |s.peers[i].log|
    case DeliverAppend(msg) => msg in s.appends && msg.to < |s.peers| && msg.args.prevIndex >= 0
    case TakeAppend(msg, _) =>
      && msg in s.appendReplies && msg.args.leader < |s.peers|
      && msg.to < |s.peers[msg.args.leader].next| && msg.to < |s.peers[msg.args.leader].matched|
    case StartCommand(i, _) => i < |s.peers| && s.peers[i].log != []
  }

  function DoElect(s: Cluster, i: nat): Cluster
    requires Enabled(s, Elect(i))
  {
    var p := ToCandidate(s.peers[i]);
    var args := VoteRequest(p);
    var others := (set v: nat | v in Range(|s.peers|) && v != i);
    s.(peers := s.peers[i := p],
       elections := s.elections[KeyOf(args) := Election(args, Tally(1, false), {i}, others, p.log)],
       events := s.events + [Granted(i, args, p.log)])
  }

  function DoDeliverVote(s: Cluster, args: VoteArgs, v: nat): Cluster
    requires Enabled(s, DeliverVote(args, v))
  {
    var (p, reply) := OnVote(s.peers[v], args);
    s.(peers := s.peers[v := p],
       voteReplies := s.voteReplies + {VoteReplyMsg(args, v, reply)},
       events := s.events + if reply.granted then [Granted(v, args, s.peers[v].log)] else [])
  }

  function DoTakeVote(s: Cluster, msg: VoteReplyMsg): Cluster
    requires Enabled(s, TakeVote(msg))
  {
    var key, c := KeyOf(msg.args), msg.args.candidate;
    var e := s.elections[key];
    var (p, tally) := OnVoteReply(s.peers[c], msg.args, e.tally, msg.reply, |s.peers|);
    var counted := if tally.votes > e.tally.votes then e.counted + {msg.voter} else e.counted;
    s.(peers := s.peers[c := p],
       elections := s.elections[key := e.(tally := tally, counted := counted, waiting := e.waiting - {msg.voter})],
       events := s.events + if tally.done && !e.tally.done then [Won(c, msg.args, counted, s.peers[c].log)] else [])
  }

  function DoSendAppend(s: Cluster, i: nat, to: nat): Cluster
    requires Enabled(s, SendAppend(i, to))
  {
    s.(appends := s.appends + {AppendMsg(AppendRequest(s.peers[i], to), to)})
  }

  function DoDeliverAppend(s: Cluster, msg: AppendMsg): Cluster
    requires Enabled(s, DeliverAppend(msg))
  {
    var was := s.peers[msg.to];
    var (p, reply) := OnAppend(was, msg.args);
    s.(peers := s.peers[msg.to := p],
       appendReplies := s.appendReplies + {AppendReplyMsg(msg.args, msg.to, reply)},
       events := s.events +
         if was.role != Follower && was.term == msg.args.term then [SteppedDown(msg.to, was.term)] else [])
  }

  function DoTakeAppend(s: Cluster, msg: AppendReplyMsg, commits: bool): Cluster
    requires Enabled(s, TakeAppend(msg, commits))
  {
    var l := msg.args.leader;
    s.(peers := s.peers[l := OnAppendReply(s.peers[l], msg.args, msg.to, msg.reply, commits)])
  }

  function DoStartCommand(s: Cluster, i: nat, command: Command): Cluster
    requires Enabled(s, StartCommand(i, command))
  {
    s.(peers := s.peers[i := OnCommand(s.peers[i], command)])
  }

  function Apply(s: Cluster, step: Step): Cluster
    requires Enabled(s, step)
  {
    match step
    case Elect(i) => DoElect(s, i)
    case DeliverVote(args, v) => DoDeliverVote(s, args, v)
    case TakeVote(msg) => DoTakeVote(s, msg)
    case SendAppend(i, to) => DoSendAppend(s, i, to)
    case DeliverAppend(msg) => DoDeliverAppend(s, msg)
    case TakeAppend(msg, commits) => DoTakeAppend(s, msg, commits)
    case StartCommand(i, command) => DoStartCommand(s, i, command)
  }

  // ---------- runs ----------

  ghost predicate Follows(s: Cluster, s': Cluster)
  {
    exists step :: Enabled(s, step) && s' == Apply(s, step)
  }

  ghost predicate StepAt(run: seq<Cluster>, k: int)
    requires 0 <= k < |run| - 1
  {
    Follows(run[k], run[k + 1])
  }

  ghost predicate IsRun(n: nat, run: seq<Cluster>)
  {
    && run != [] && run[0] == Init(n)
    && forall k :: 0 <= k < |run| - 1 ==> StepAt(run, k)
  }
}
