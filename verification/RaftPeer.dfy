/** One Raft peer: what each locked region of the code does to the peer's state. */
module RaftPeer {

  datatype Role = Leader | Follower | Candidate

  type Command = string
  datatype LogEntry = LogEntry(term: int, command: Command)

  const NOBODY := -1

  datatype Peer = Peer(
    me: nat, term: int, votedFor: int, log: seq<LogEntry>, role: Role, commit: int,
    next: seq<int>, matched: seq<int>, termToIndex: map<int, int>)

  datatype VoteArgs = VoteArgs(term: int, candidate: nat, lastIndex: int, lastTerm: int)
  datatype VoteReply = VoteReply(term: int, granted: bool)
  datatype AppendArgs = AppendArgs(
    term: int, leader: nat, prevIndex: int, prevTerm: int, entries: seq<LogEntry>, commit: int, termToIndex: map<int, int>)
  datatype AppendReply = AppendReply(term: int, success: bool)

  /** The peer of Make: term 0, no vote, and a log with only the sentinel at index 0. */
  function Fresh(me: nat): Peer
  {
    Peer(me, 0, NOBODY, [LogEntry(0, "")], Follower, 0, [], [], map[0 := 0])
  }

  function LastTerm(log: seq<LogEntry>): int
    requires log != []
  {
    log[|log| - 1].term
  }

  /** A missing key reads as zero. */
  function Lookup(m: map<int, int>, k: int): int
  {
    if k in m then m[k] else 0
  }

  /** The map's index of the greatest term between 0 and t that has one, or 1 if none has. */
  ghost predicate FirstBelow(m: map<int, int>, t: int, index: int)
  {
    || (index == 1 && forall u :: 0 < u < t ==> Lookup(m, u) == 0)
    || exists u :: 0 < u < t && index == Lookup(m, u) != 0 && forall w :: u < w < t ==> Lookup(m, w) == 0
  }

  // ---------- conversions ----------

  function ToCandidate(p: Peer): Peer
  {
    p.(role := Candidate, term := p.term + 1, votedFor := p.me)
  }

  function ToFollower(p: Peer, term: int): Peer
  {
    p.(role := Follower, term := term, votedFor := NOBODY)
  }

  function ToLeader(p: Peer, n: nat): Peer
  {
    p.(role := Leader, next := seq(n, _ => |p.log|), matched := seq(n, _ => 0))
  }

  // ---------- elections ----------

  function VoteRequest(p: Peer): VoteArgs
    requires p.log != []
  {
    VoteArgs(p.term, p.me, |p.log| - 1, LastTerm(p.log))
  }

  /** The log that ends at (lastIndex, lastTerm) is at least as up to date as `log`. */
  predicate UpToDate(lastIndex: int, lastTerm: int, log: seq<LogEntry>)
    requires log != []
  {
    lastTerm > LastTerm(log) || (lastTerm == LastTerm(log) && lastIndex >= |log| - 1)
  }

  /** RequestVote. The reply to a candidate whose log is behind carries no term. */
  function OnVote(p: Peer, args: VoteArgs): (Peer, VoteReply)
    requires p.log != []
  {
    if p.term > args.term then (p, VoteReply(p.term, false))
    else
      var q := if p.term < args.term then p.(term := args.term, votedFor := NOBODY) else p;
      if q.votedFor != NOBODY && q.votedFor != args.candidate then (q, VoteReply(q.term, false))
      else if UpToDate(args.lastIndex, args.lastTerm, q.log) then (q.(votedFor := args.candidate), VoteReply(q.term, true))
      else (q, VoteReply(0, false))
  }

  /** The candidate's counter of one election: `votes` so far, and whether it was won. */
  datatype Tally = Tally(votes: nat, done: bool)

  /** A reply to the request `args`, among n peers. */
  function OnVoteReply(p: Peer, args: VoteArgs, tally: Tally, reply: VoteReply, n: nat): (Peer, Tally)
  {
    if reply.term > p.term then (ToFollower(p, reply.term), tally)
    else if !reply.granted then (p, tally)
    else
      var t := tally.(votes := tally.votes + 1);
      if t.done || t.votes <= n / 2 then (p, t)
      else if p.term == args.term && p.role == Candidate then (ToLeader(p, n), t.(done := true))
      else (p, t)
  }

  // ---------- log replication ----------

  /** AppendEntries. A peer that is not a follower steps down without looking at the log. */
  function OnAppend(p: Peer, args: AppendArgs): (Peer, AppendReply)
    requires args.prevIndex >= 0
  {
    if p.role != Follower then
      if p.term <= args.term then (ToFollower(p, args.term), AppendReply(args.term, true))
      else (p, AppendReply(p.term, false))
    else if p.term <= args.term then
      var q := p.(term := args.term);
      if |q.log| <= args.prevIndex then (q, AppendReply(q.term, false))
      else if q.log[args.prevIndex].term != args.prevTerm then (q, AppendReply(q.term, false))
      else
        var log := q.log[..args.prevIndex + 1] + args.entries;
        (q.(log := log, termToIndex := args.termToIndex, commit := NewCommit(q.commit, args.commit, |log| - 1)),
         AppendReply(q.term, true))
    else (p, AppendReply(p.term, false))
  }

  function NewCommit(commit: int, leaderCommit: int, last: int): int
  {
    if leaderCommit > commit then (if leaderCommit < last then leaderCommit else last) else commit
  }

  /** The request a leader, or a peer that was one, sends to peer i. */
  function AppendRequest(p: Peer, i: nat): AppendArgs
    requires i < |p.next| && 1 <= p.next[i] <= |p.log|
  {
    AppendArgs(p.term, p.me, p.next[i] - 1, p.log[p.next[i] - 1].term, p.log[p.next[i]..], p.commit, p.termToIndex)
  }

  /** The first index of the greatest term from t down that has one, or 1. */
  function BackOff(m: map<int, int>, t: int): int
    decreases if t > 0 then t else 0
  {
    if t <= 0 then 1 else if Lookup(m, t) != 0 then Lookup(m, t) else BackOff(m, t - 1)
  }

  /** A reply to the request `args` from peer i; `commits` says whether this reply completes a
      majority of the round. */
  function OnAppendReply(p: Peer, args: AppendArgs, i: nat, reply: AppendReply, commits: bool): Peer
    requires i < |p.next| && i < |p.matched|
  {
    if !reply.success then
      if reply.term > p.term then ToFollower(p, reply.term)
      else p.(next := p.next[i := BackOff(p.termToIndex, args.prevTerm - 1)])
    else
      var q := p.(next := p.next[i := |p.log|], matched := p.matched[i := |p.log| - 1]);
      if commits then q.(commit := |p.log| - 1) else q
  }

  /** Start: a leader appends the command to its log. */
  function OnCommand(p: Peer, command: Command): Peer
    requires p.log != []
  {
    if p.role != Leader then p
    else
      p.(termToIndex := if p.term != LastTerm(p.log) then p.termToIndex[p.term := |p.log|] else p.termToIndex,
         log := p.log + [LogEntry(p.term, command)])
  }
}
