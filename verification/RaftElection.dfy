/** Elections: who may win a term, and on what grounds. */
module RaftElection {
  import opened Collections
  import opened RaftPeer
  import opened RaftCluster

  // ---------- events ----------

  ghost predicate IsGrant(events: seq<Event>, i: int, v: nat, c: nat, term: int)
  {
    0 <= i < |events| && events[i].Granted? && events[i].voter == v
    && events[i].args.candidate == c && events[i].args.term == term
  }

  /** `v` granted this very request. */
  ghost predicate HasGrant(events: seq<Event>, v: nat, args: VoteArgs)
  {
    exists i :: 0 <= i < |events| && events[i].Granted? && events[i].voter == v && events[i].args == args
  }

  /** Between events i and j peer v stepped down within the term. */
  ghost predicate DownBetween(events: seq<Event>, i: int, j: int, v: nat, term: int)
  {
    exists k :: 0 <= i < k < j <= |events| && events[k] == SteppedDown(v, term)
  }

  // ---------- a peer's vote ----------

  /** A vote given in the peer's current term is still held, unless the peer stepped down since. */
  ghost predicate VoterOk(p: Peer, v: nat, events: seq<Event>)
  {
    forall i, c, term :: IsGrant(events, i, v, c, term) ==>
      term <= p.term && (term == p.term ==> p.votedFor == c || DownBetween(events, i, |events|, v, term))
  }

  /** Two grants of one voter in one term to different candidates have a step-down between them. */
  ghost predicate PairsOk(events: seq<Event>)
  {
    forall i, j, v, c, d, term :: IsGrant(events, i, v, c, term) && IsGrant(events, j, v, d, term) && i < j && c != d ==>
      DownBetween(events, i, j, v, term)
  }

  /** How a step may move peer v from p to p', with these events. */
  ghost predicate VoteMove(p: Peer, p': Peer, v: nat, more: seq<Event>)
  {
    && |more| <= 1
    && (forall k :: 0 <= k < |more| && more[k].Granted? ==>
          more[k].voter == v && more[k].args.term == p'.term && more[k].args.candidate == p'.votedFor
          && (p'.term > p.term || p.votedFor == NOBODY || p.votedFor == p'.votedFor))
    && (p'.term > p.term
        || (p'.term == p.term && p'.votedFor == p.votedFor)
        || (p'.term == p.term && more == [SteppedDown(v, p.term)])
        || (p'.term == p.term && p.votedFor == NOBODY))
  }

  lemma ElectMoves(p: Peer, v: nat)
    requires p.log != [] && p.me == v
    ensures VoteMove(p, ToCandidate(p), v, [Granted(v, VoteRequest(ToCandidate(p)), p.log)])
  {
  }

  lemma VoteMoves(p: Peer, v: nat, args: VoteArgs)
    requires p.log != []
    ensures var (p', reply) := OnVote(p, args);
            VoteMove(p, p', v, if reply.granted then [Granted(v, args, p.log)] else [])
  {
  }

  lemma VoteReplyMoves(p: Peer, v: nat, args: VoteArgs, tally: Tally, reply: VoteReply, n: nat, more: seq<Event>)
    requires |more| <= 1 && forall k :: 0 <= k < |more| ==> more[k].Won?
    ensures VoteMove(p, OnVoteReply(p, args, tally, reply, n).0, v, more)
  {
  }

  lemma AppendMoves(p: Peer, v: nat, args: AppendArgs)
    requires args.prevIndex >= 0
    ensures VoteMove(p, OnAppend(p, args).0, v,
              if p.role != Follower && p.term == args.term then [SteppedDown(v, p.term)] else [])
  {
  }

  lemma AppendReplyMoves(p: Peer, v: nat, args: AppendArgs, i: nat, reply: AppendReply, commits: bool)
    requires i < |p.next| && i < |p.matched|
    ensures VoteMove(p, OnAppendReply(p, args, i, reply, commits), v, [])
  {
  }

  // ---------- a move keeps the votes right ----------

  lemma DownGrows(events: seq<Event>, more: seq<Event>, i: int, j: int, v: nat, term: int)
    requires DownBetween(events, i, j, v, term) && |events| <= |events + more|
    ensures DownBetween(events + more, i, j, v, term)
    ensures j == |events| ==> DownBetween(events + more, i, |events + more|, v, term)
  {
    var k :| 0 <= i < k < j <= |events| && events[k] == SteppedDown(v, term);
    assert (events + more)[k] == SteppedDown(v, term);
  }

  lemma MoverOk(p: Peer, p': Peer, v: nat, events: seq<Event>, more: seq<Event>)
    requires VoterOk(p, v, events) && VoteMove(p, p', v, more)
    ensures VoterOk(p', v, events + more)
  {
    var all := events + more;
    forall i, c, term | IsGrant(all, i, v, c, term)
      ensures term <= p'.term && (term == p'.term ==> p'.votedFor == c || DownBetween(all, i, |all|, v, term))
    {
      if i < |events| {
        assert IsGrant(events, i, v, c, term);
        if term == p'.term && p'.votedFor != c {
          if DownBetween(events, i, |events|, v, term) {
            DownGrows(events, more, i, |events|, v, term);
          } else {
            assert all[|events|] == SteppedDown(v, term);
          }
        }
      }
    }
  }

  lemma OthersOk(p: Peer, w: nat, v: nat, events: seq<Event>, more: seq<Event>)
    requires VoterOk(p, w, events) && w != v && forall k :: 0 <= k < |more| && more[k].Granted? ==> more[k].voter == v
    ensures VoterOk(p, w, events + more)
  {
    var all := events + more;
    forall i, c, term | IsGrant(all, i, w, c, term)
      ensures term <= p.term && (term == p.term ==> p.votedFor == c || DownBetween(all, i, |all|, w, term))
    {
      assert IsGrant(events, i, w, c, term);
      if DownBetween(events, i, |events|, w, term) {
        DownGrows(events, more, i, |events|, w, term);
      }
    }
  }

  lemma PairsGrow(p: Peer, p': Peer, v: nat, events: seq<Event>, more: seq<Event>)
    requires PairsOk(events) && VoterOk(p, v, events) && VoteMove(p, p', v, more)
    ensures PairsOk(events + more)
  {
    var all := events + more;
    forall i, j, w, c, d, term | IsGrant(all, i, w, c, term) && IsGrant(all, j, w, d, term) && i < j && c != d
      ensures DownBetween(all, i, j, w, term)
    {
      assert IsGrant(events, i, w, c, term);
      if j < |events| {
        assert IsGrant(events, j, w, d, term);
        DownGrows(events, more, i, j, w, term);
      } else {
        assert more[j - |events|] == all[j];
        DownGrows(events, more, i, |events|, w, term);
      }
    }
  }

  // ---------- the cluster ----------

  ghost predicate PeersInv(peers: seq<Peer>)
  {
    forall v :: 0 <= v < |peers| ==> peers[v].me == v && peers[v].log != []
  }

  ghost predicate VotesInv(peers: seq<Peer>, events: seq<Event>)
  {
    PairsOk(events) && forall v :: 0 <= v < |peers| ==> VoterOk(peers[v], v, events)
  }

  /** Every grant is by a peer whose log was no more up to date than the request's. */
  ghost predicate GrantsInv(n: nat, events: seq<Event>)
  {
    forall i :: 0 <= i < |events| && events[i].Granted? ==>
      events[i].voter < n && events[i].log != [] && UpToDate(events[i].args.lastIndex, events[i].args.lastTerm, events[i].log)
  }

  ghost predicate RepliesInv(n: nat, replies: set<VoteReplyMsg>, events: seq<Event>)
  {
    forall m :: m in replies ==> m.voter < n && (m.reply.granted ==> HasGrant(events, m.voter, m.args))
  }

  /** The request describes this log. */
  predicate Describes(args: VoteArgs, log: seq<LogEntry>)
  {
    log != [] && args.lastIndex == |log| - 1 && args.lastTerm == LastTerm(log)
  }

  /** Distinct peers that granted this very request have been counted, once each. */
  ghost predicate TallyOk(n: nat, e: Election, events: seq<Event>)
  {
    && |e.counted| == e.tally.votes
    && e.counted !! e.waiting
    && (forall v :: v in e.counted ==> v < n && HasGrant(events, v, e.args))
    && (forall v :: v in e.waiting ==> v < n)
    && Describes(e.args, e.log) && Granted(e.args.candidate, e.args, e.log) in events
  }

  /** A candidate that is still in the term of its election has the log of its request. */
  predicate CandidateOk(e: Election, p: Peer)
  {
    e.args.term <= p.term && (e.args.term == p.term && p.role == Candidate ==> p.log == e.log)
  }

  ghost predicate ElectionsInv(peers: seq<Peer>, elections: map<(nat, int), Election>, events: seq<Event>)
  {
    forall key: (nat, int) :: key in elections ==>
      && KeyOf(elections[key].args) == key && key.0 < |peers|
      && TallyOk(|peers|, elections[key], events)
      && CandidateOk(elections[key], peers[key.0])
  }

  /** A winner had, when it won, a majority of distinct peers that had granted its request, and
      the very log with which it had made the request. */
  ghost predicate WinOk(n: nat, win: Event, events: seq<Event>)
    requires win.Won?
  {
    && win.peer == win.args.candidate
    && 2 * |win.quorum| > n
    && (forall v :: v in win.quorum ==> v < n && HasGrant(events, v, win.args))
    && Describes(win.args, win.log) && Granted(win.peer, win.args, win.log) in events
  }

  ghost predicate WinsInv(n: nat, events: seq<Event>)
  {
    forall i :: 0 <= i < |events| && events[i].Won? ==> WinOk(n, events[i], events[..i])
  }

  ghost predicate Inv(s: Cluster)
  {
    && PeersInv(s.peers)
    && VotesInv(s.peers, s.events)
    && GrantsInv(|s.peers|, s.events)
    && RepliesInv(|s.peers|, s.voteReplies, s.events)
    && ElectionsInv(s.peers, s.elections, s.events)
    && WinsInv(|s.peers|, s.events)
  }

  lemma InitInv(n: nat)
    ensures Inv(Init(n))
  {
  }

  // ---------- what a move of one peer keeps ----------

  lemma GrantGrows(events: seq<Event>, more: seq<Event>, v: nat, args: VoteArgs)
    requires HasGrant(events, v, args)
    ensures HasGrant(events + more, v, args)
  {
    var i :| 0 <= i < |events| && events[i].Granted? && events[i].voter == v && events[i].args == args;
    assert (events + more)[i] == events[i];
  }

  lemma VotesKept(peers: seq<Peer>, events: seq<Event>, v: nat, p: Peer, more: seq<Event>)
    requires VotesInv(peers, events) && v < |peers| && VoteMove(peers[v], p, v, more)
    ensures VotesInv(peers[v := p], events + more)
  {
    hide VoterOk, PairsOk;
    PairsGrow(peers[v], p, v, events, more);
    var after := peers[v := p];
    forall w | 0 <= w < |peers| ensures VoterOk(after[w], w, events + more) {
      if w == v {
        MoverOk(peers[v], p, v, events, more);
      } else {
        OthersOk(peers[w], w, v, events, more);
      }
    }
  }

  lemma RepliesKept(n: nat, replies: set<VoteReplyMsg>, events: seq<Event>, more: seq<Event>)
    requires RepliesInv(n, replies, events)
    ensures RepliesInv(n, replies, events + more)
  {
    forall m | m in replies && m.reply.granted ensures HasGrant(events + more, m.voter, m.args) {
      GrantGrows(events, more, m.voter, m.args);
    }
  }

  lemma TallyKept(n: nat, e: Election, events: seq<Event>, more: seq<Event>)
    requires TallyOk(n, e, events)
    ensures TallyOk(n, e, events + more)
  {
    forall v | v in e.counted ensures HasGrant(events + more, v, e.args) {
      GrantGrows(events, more, v, e.args);
    }
  }

  lemma WinsKept(n: nat, events: seq<Event>, more: seq<Event>)
    requires WinsInv(n, events) && |more| <= 1
    requires forall k :: 0 <= k < |more| && more[k].Won? ==> WinOk(n, more[k], events)
    ensures WinsInv(n, events + more)
  {
    hide WinOk;
    var all := events + more;
    forall i | 0 <= i < |all| && all[i].Won? ensures WinOk(n, all[i], all[..i]) {
      if i < |events| {
        assert all[..i] == events[..i];
      } else {
        assert all[..i] == events;
      }
    }
  }

  /** Whoever is a candidate after a step that kept the term was one before, with the same log. */
  predicate LogMove(p: Peer, p': Peer)
  {
    p'.term >= p.term && (p'.term == p.term && p'.role == Candidate ==> p.role == Candidate && p'.log == p.log)
  }

  lemma ElectionsKept(peers: seq<Peer>, elections: map<(nat, int), Election>, events: seq<Event>,
                      v: nat, p: Peer, more: seq<Event>)
    requires ElectionsInv(peers, elections, events) && v < |peers| && LogMove(peers[v], p)
    ensures ElectionsInv(peers[v := p], elections, events + more)
  {
    hide TallyOk;
    forall key: (nat, int) | key in elections ensures TallyOk(|peers|, elections[key], events + more) {
      TallyKept(|peers|, elections[key], events, more);
    }
  }

  /** A step that moves one peer and adds no grant of another, no reply and no win. */
  lemma MoveInv(s: Cluster, v: nat, p: Peer, more: seq<Event>)
    requires Inv(s) && v < |s.peers| && VoteMove(s.peers[v], p, v, more) && LogMove(s.peers[v], p)
    requires p.me == v && p.log != []
    requires forall k :: 0 <= k < |more| && more[k].Won? ==> WinOk(|s.peers|, more[k], s.events)
    requires forall k :: 0 <= k < |more| && more[k].Granted? ==>
      more[k].log != [] && UpToDate(more[k].args.lastIndex, more[k].args.lastTerm, more[k].log)
    ensures Inv(s.(peers := s.peers[v := p], events := s.events + more))
  {
    VotesKept(s.peers, s.events, v, p, more);
    RepliesKept(|s.peers|, s.voteReplies, s.events, more);
    ElectionsKept(s.peers, s.elections, s.events, v, p, more);
    WinsKept(|s.peers|, s.events, more);
    assert PeersInv(s.peers[v := p]) && GrantsInv(|s.peers|, s.events + more);
    hide PeersInv, VotesInv, RepliesInv, ElectionsInv, WinsInv, GrantsInv;
  }

  // ---------- the steps ----------

  lemma LastEvent(events: seq<Event>, v: nat, args: VoteArgs, log: seq<LogEntry>)
    ensures HasGrant(events + [Granted(v, args, log)], v, args)
    ensures Granted(v, args, log) in events + [Granted(v, args, log)]
  {
    assert (events + [Granted(v, args, log)])[|events|] == Granted(v, args, log);
  }

  lemma PeerFacts(s: Cluster, v: nat)
    requires PeersInv(s.peers) && v < |s.peers|
    ensures s.peers[v].me == v && s.peers[v].log != []
  {
  }

  lemma ElectInv(s: Cluster, i: nat)
    requires Inv(s) && Enabled(s, Elect(i))
    ensures Inv(DoElect(s, i))
  {
    hide PeersInv, VotesInv, RepliesInv, WinsInv, GrantsInv, ElectionsInv, TallyOk;
    var p := ToCandidate(s.peers[i]);
    var args := VoteRequest(p);
    var more := [Granted(i, args, p.log)];
    PeerFacts(s, i);
    ElectMoves(s.peers[i], i);
    hide VoteMove;
    MoveInv(s, i, p, more);
    LastEvent(s.events, i, args, p.log);
    var e := DoElect(s, i).elections[KeyOf(args)];
    NewElection(s.(peers := s.peers[i := p], events := s.events + more), i, e);
  }

  lemma NewElection(t: Cluster, i: nat, e: Election)
    requires ElectionsInv(t.peers, t.elections, t.events) && i < |t.peers| && t.peers[i].log != []
    requires t.peers[i].me == i && e.args == VoteRequest(t.peers[i]) && e.log == t.peers[i].log
    requires e.tally.votes == 1 && e.counted == {i}
    requires HasGrant(t.events, i, e.args) && Granted(i, e.args, e.log) in t.events
    requires i !in e.waiting && forall v :: v in e.waiting ==> v < |t.peers|
    ensures ElectionsInv(t.peers, t.elections[KeyOf(e.args) := e], t.events)
  {
    assert TallyOk(|t.peers|, e, t.events);
    hide TallyOk;
  }

  lemma DeliverVoteInv(s: Cluster, args: VoteArgs, v: nat)
    requires Inv(s) && Enabled(s, DeliverVote(args, v))
    ensures Inv(DoDeliverVote(s, args, v))
  {
    hide PeersInv, VotesInv, RepliesInv, WinsInv, GrantsInv, ElectionsInv;
    var (p, reply) := OnVote(s.peers[v], args);
    var more := if reply.granted then [Granted(v, args, s.peers[v].log)] else [];
    PeerFacts(s, v);
    VoteMoves(s.peers[v], v, args);
    hide VoteMove;
    MoveInv(s, v, p, more);
    if reply.granted { LastEvent(s.events, v, args, s.peers[v].log); }
    NewReply(|s.peers|, s.voteReplies, s.events + more, VoteReplyMsg(args, v, reply));
  }

  lemma NewReply(n: nat, replies: set<VoteReplyMsg>, events: seq<Event>, m: VoteReplyMsg)
    requires RepliesInv(n, replies, events) && m.voter < n && (m.reply.granted ==> HasGrant(events, m.voter, m.args))
    ensures RepliesInv(n, replies + {m}, events)
  {
  }

  /** Counting a granted vote of somebody not counted yet. */
  lemma CountVote(n: nat, e: Election, events: seq<Event>, v: nat, tally: Tally)
    requires TallyOk(n, e, events) && v in e.waiting && HasGrant(events, v, e.args) && tally.votes == e.tally.votes + 1
    ensures TallyOk(n, e.(tally := tally, counted := e.counted + {v}, waiting := e.waiting - {v}), events)
  {
  }

  lemma SkipVote(n: nat, e: Election, events: seq<Event>, v: nat, tally: Tally)
    requires TallyOk(n, e, events) && tally.votes == e.tally.votes
    ensures TallyOk(n, e.(tally := tally, waiting := e.waiting - {v}), events)
  {
  }

  /** What the candidate does with a reply. */
  lemma ReplyCases(p: Peer, args: VoteArgs, tally: Tally, reply: VoteReply, n: nat)
    ensures var (p', tally') := OnVoteReply(p, args, tally, reply, n);
            && LogMove(p, p') && p'.me == p.me && p'.log == p.log
            && (tally'.votes == tally.votes || (tally'.votes == tally.votes + 1 && reply.granted))
            && (tally'.done && !tally.done ==>
                  tally'.votes == tally.votes + 1 && 2 * tally'.votes > n && p.term == args.term && p.role == Candidate)
  {
  }

  /** What is known of the election a reply belongs to. */
  lemma TakeVoteFacts(s: Cluster, msg: VoteReplyMsg)
    requires Inv(s) && Enabled(s, TakeVote(msg))
    ensures var e, c := s.elections[KeyOf(msg.args)], msg.args.candidate;
            && TallyOk(|s.peers|, e, s.events) && CandidateOk(e, s.peers[c]) && s.peers[c].me == c && s.peers[c].log != []
            && (msg.reply.granted ==> HasGrant(s.events, msg.voter, msg.args))
  {
    hide VotesInv, WinsInv, GrantsInv, TallyOk, HasGrant;
  }

  /** The election after the reply is taken, and the win it may bring. */
  function After(s: Cluster, msg: VoteReplyMsg): (Peer, Election, seq<Event>)
    requires Enabled(s, TakeVote(msg))
  {
    var e, c := s.elections[KeyOf(msg.args)], msg.args.candidate;
    var (p, tally) := OnVoteReply(s.peers[c], msg.args, e.tally, msg.reply, |s.peers|);
    var counted := if tally.votes > e.tally.votes then e.counted + {msg.voter} else e.counted;
    (p, e.(tally := tally, counted := counted, waiting := e.waiting - {msg.voter}),
     if tally.done && !e.tally.done then [Won(c, msg.args, counted, s.peers[c].log)] else [])
  }

  lemma TakeVoteTally(s: Cluster, msg: VoteReplyMsg)
    requires Inv(s) && Enabled(s, TakeVote(msg))
    ensures TallyOk(|s.peers|, After(s, msg).1, s.events)
  {
    TakeVoteFacts(s, msg);
    var n, e, c := |s.peers|, s.elections[KeyOf(msg.args)], msg.args.candidate;
    ReplyCases(s.peers[c], msg.args, e.tally, msg.reply, n);
    var tally := OnVoteReply(s.peers[c], msg.args, e.tally, msg.reply, n).1;
    hide OnVoteReply, LogMove, Inv, HasGrant, TallyOk;
    if tally.votes > e.tally.votes {
      CountVote(n, e, s.events, msg.voter, tally);
    } else {
      SkipVote(n, e, s.events, msg.voter, tally);
    }
  }

  lemma TakeVoteWin(s: Cluster, msg: VoteReplyMsg)
    requires Inv(s) && Enabled(s, TakeVote(msg))
    ensures var more := After(s, msg).2;
            forall k :: 0 <= k < |more| ==> more[k].Won? && WinOk(|s.peers|, more[k], s.events)
  {
    TakeVoteFacts(s, msg);
    TakeVoteTally(s, msg);
    var e, c := s.elections[KeyOf(msg.args)], msg.args.candidate;
    ReplyCases(s.peers[c], msg.args, e.tally, msg.reply, |s.peers|);
    hide OnVoteReply, LogMove, Inv, HasGrant, Describes;
  }

  lemma TakeVoteInv(s: Cluster, msg: VoteReplyMsg)
    requires Inv(s) && Enabled(s, TakeVote(msg))
    ensures Inv(DoTakeVote(s, msg))
  {
    var e, c, n := s.elections[KeyOf(msg.args)], msg.args.candidate, |s.peers|;
    var (p, e', more) := After(s, msg);
    TakeVoteFacts(s, msg);
    TakeVoteTally(s, msg);
    TakeVoteWin(s, msg);
    ReplyCases(s.peers[c], msg.args, e.tally, msg.reply, n);
    VoteReplyMoves(s.peers[c], c, msg.args, e.tally, msg.reply, n, more);
    hide OnVoteReply, VoteMove, LogMove, Inv, TallyOk, WinOk;
    TakeVoteDone(s, msg, p, e', more);
  }

  lemma TakeVoteDone(s: Cluster, msg: VoteReplyMsg, p: Peer, e': Election, more: seq<Event>)
    requires Inv(s) && Enabled(s, TakeVote(msg))
    requires var c := msg.args.candidate;
             VoteMove(s.peers[c], p, c, more) && LogMove(s.peers[c], p) && p.me == c && p.log != []
    requires forall k :: 0 <= k < |more| ==> more[k].Won? && WinOk(|s.peers|, more[k], s.events)
    requires TallyOk(|s.peers|, e', s.events) && e'.args == msg.args && e'.log == s.elections[KeyOf(msg.args)].log
    ensures Inv(s.(peers := s.peers[msg.args.candidate := p], elections := s.elections[KeyOf(msg.args) := e'],
                   events := s.events + more))
  {
    hide PeersInv, VotesInv, RepliesInv, WinsInv, GrantsInv, TallyOk, VoteMove, WinOk, LogMove, ElectionsInv;
    var c := msg.args.candidate;
    MoveInv(s, c, p, more);
    TallyKept(|s.peers|, e', s.events, more);
    var t := s.(peers := s.peers[c := p], events := s.events + more);
    Recounted(t.peers, t.elections, t.events, e');
  }

  /** A recount of an election keeps the others. */
  lemma Recounted(peers: seq<Peer>, elections: map<(nat, int), Election>, events: seq<Event>, e': Election)
    requires ElectionsInv(peers, elections, events) && KeyOf(e'.args) in elections && TallyOk(|peers|, e', events)
    requires var e := elections[KeyOf(e'.args)]; e'.args == e.args && e'.log == e.log
    ensures ElectionsInv(peers, elections[KeyOf(e'.args) := e'], events)
  {
    hide TallyOk;
  }

  lemma DeliverAppendInv(s: Cluster, msg: AppendMsg)
    requires Inv(s) && Enabled(s, DeliverAppend(msg))
    ensures Inv(DoDeliverAppend(s, msg))
  {
    var v, was := msg.to, s.peers[msg.to];
    var more := if was.role != Follower && was.term == msg.args.term then [SteppedDown(v, was.term)] else [];
    AppendMoves(was, v, msg.args);
    assert was.me == v;
    MoveInv(s, v, OnAppend(was, msg.args).0, more);
  }

  lemma TakeAppendInv(s: Cluster, msg: AppendReplyMsg, commits: bool)
    requires Inv(s) && Enabled(s, TakeAppend(msg, commits))
    ensures Inv(DoTakeAppend(s, msg, commits))
  {
    var l := msg.args.leader;
    AppendReplyMoves(s.peers[l], l, msg.args, msg.to, msg.reply, commits);
    assert s.peers[l].me == l;
    MoveInv(s, l, OnAppendReply(s.peers[l], msg.args, msg.to, msg.reply, commits), []);
    assert s.events + [] == s.events;
  }

  lemma StartCommandInv(s: Cluster, i: nat, command: Command)
    requires Inv(s) && Enabled(s, StartCommand(i, command))
    ensures Inv(DoStartCommand(s, i, command))
  {
    assert s.peers[i].me == i;
    MoveInv(s, i, OnCommand(s.peers[i], command), []);
    assert s.events + [] == s.events;
  }

  /** Every step keeps the invariant. */
  lemma StepInv(s: Cluster, step: Step)
    requires Inv(s) && Enabled(s, step)
    ensures Inv(Apply(s, step))
  {
    match step
    case Elect(i) => hide Inv; ElectInv(s, i);
    case DeliverVote(args, v) => hide Inv; DeliverVoteInv(s, args, v);
    case TakeVote(msg) => hide Inv; TakeVoteInv(s, msg);
    case SendAppend(i, to) => hide PeersInv, VotesInv, RepliesInv, ElectionsInv, WinsInv, GrantsInv;
    case DeliverAppend(msg) => hide Inv; DeliverAppendInv(s, msg);
    case TakeAppend(msg, commits) => hide Inv; TakeAppendInv(s, msg, commits);
    case StartCommand(i, command) => hide Inv; StartCommandInv(s, i, command);
  }

  lemma {:induction false} RunInv(n: nat, run: seq<Cluster>, k: int)
    requires IsRun(n, run) && 0 <= k < |run|
    ensures Inv(run[k]) && |run[k].peers| == n
  {
    hide Inv, Enabled, Apply;
    if k == 0 {
      InitInv(n);
    } else {
      RunInv(n, run, k - 1);
      assert StepAt(run, k - 1);
      var step :| Enabled(run[k - 1], step) && run[k] == Apply(run[k - 1], step);
      StepInv(run[k - 1], step);
      SameSize(run[k - 1], step);
    }
  }

  lemma SameSize(s: Cluster, step: Step)
    requires Enabled(s, step)
    ensures |Apply(s, step).peers| == |s.peers|
  {
  }

  /** A vote given in the current term is lost by one kind of step only: a request of the same
      term that reaches a peer that is not a follower. */
  lemma VoteIsLostIff(s: Cluster, step: Step, v: nat)
    requires PeersInv(s.peers) && Enabled(s, step) && v < |s.peers| && s.peers[v].votedFor != NOBODY
    ensures var (p, p') := (s.peers[v], Apply(s, step).peers[v]);
            (p'.term == p.term && p'.votedFor != p.votedFor) <==>
              (step.DeliverAppend? && step.append.to == v && p.role != Follower && p.term == step.append.args.term)
  {
    hide PeersInv;
    match step
    case Elect(i) => PeerFacts(s, i);
    case DeliverVote(args, w) =>
    case TakeVote(msg) =>
    case SendAppend(i, to) =>
    case DeliverAppend(msg) =>
    case TakeAppend(msg, commits) =>
    case StartCommand(i, command) =>
  }

  // ---------- what elections guarantee ----------

  lemma Overlap(n: nat, a: set<nat>, b: set<nat>) returns (v: nat)
    requires (forall x :: x in a + b ==> x < n) && 2 * |a| > n && 2 * |b| > n
    ensures v in a && v in b
  {
    assert a + b <= Range(n);
    assert |Range(n) - (a + b)| == n - |a + b|;
    assert |a + b| == |a| + |b| - |a * b|;
    v :| v in a * b;
  }

  /** If two peers win one term, some voter granted both, and between the two grants it ran
      the step-down within the term that gives up the vote. */
  lemma TwoWinnersShareAVoter(n: nat, run: seq<Cluster>, k: int, x: int, y: int) returns (v: nat, i: int, j: int)
    requires IsRun(n, run) && 0 <= k < |run|
    requires 0 <= x < |run[k].events| && 0 <= y < |run[k].events| && run[k].events[x].Won? && run[k].events[y].Won?
    requires run[k].events[x].args.term == run[k].events[y].args.term
    requires run[k].events[x].peer != run[k].events[y].peer
    ensures var events, term := run[k].events, run[k].events[x].args.term;
            && IsGrant(events, i, v, events[x].peer, term) && IsGrant(events, j, v, events[y].peer, term)
            && DownBetween(events, if i < j then i else j, if i < j then j else i, v, term)
  {
    hide IsRun;
    RunInv(n, run, k);
    var events := run[k].events;
    var a, b := events[x], events[y];
    assert WinOk(n, a, events[..x]) && WinOk(n, b, events[..y]);
    v := Overlap(n, a.quorum, b.quorum);
    i := GrantIndex(events, x, v, a.args);
    j := GrantIndex(events, y, v, b.args);
    assert PairsOk(events);
    assert IsGrant(events, i, v, a.peer, a.args.term) && IsGrant(events, j, v, b.peer, a.args.term);
  }

  lemma GrantIndex(events: seq<Event>, x: int, v: nat, args: VoteArgs) returns (i: int)
    requires 0 <= x <= |events| && HasGrant(events[..x], v, args)
    ensures 0 <= i < x && events[i].Granted? && events[i].voter == v && events[i].args == args
  {
    i :| 0 <= i < |events[..x]| && events[..x][i].Granted? && events[..x][i].voter == v && events[..x][i].args == args;
  }

  /** Without such a step-down in a term, the term has at most one winner. */
  lemma OneWinner(n: nat, run: seq<Cluster>, k: int, x: int, y: int)
    requires IsRun(n, run) && 0 <= k < |run|
    requires 0 <= x < |run[k].events| && 0 <= y < |run[k].events| && run[k].events[x].Won? && run[k].events[y].Won?
    requires run[k].events[x].args.term == run[k].events[y].args.term
    requires forall i :: 0 <= i < |run[k].events| && run[k].events[i].SteppedDown? ==>
      run[k].events[i].term != run[k].events[x].args.term
    ensures run[k].events[x].peer == run[k].events[y].peer
  {
    hide IsRun;
    if run[k].events[x].peer != run[k].events[y].peer {
      var v, i, j := TwoWinnersShareAVoter(n, run, k, x, y);
      assert false;
    }
  }

  /** Log a ends in a later term than log b, or in the same term and is at least as long. */
  predicate NotBehind(a: seq<LogEntry>, b: seq<LogEntry>)
  {
    && a != [] && b != []
    && (a[|a| - 1].term > b[|b| - 1].term || (a[|a| - 1].term == b[|b| - 1].term && |a| >= |b|))
  }

  /** A vote request is granted exactly when it is not of an older term, the peer is free to vote
      for it, and the log it was made with is not behind the peer's. */
  lemma GrantedIff(s: Cluster, args: VoteArgs, v: nat)
    requires Inv(s) && Enabled(s, DeliverVote(args, v))
    ensures var (p, p') := (s.peers[v], Apply(s, DeliverVote(args, v)).peers[v]);
            var free := args.term > p.term || (args.term == p.term && (p.votedFor == NOBODY || p.votedFor == args.candidate));
            && (OnVote(p, args).1.granted <==> free && NotBehind(s.elections[KeyOf(args)].log, p.log))
            && (OnVote(p, args).1.granted ==> p'.votedFor == args.candidate && p'.term == args.term)
            && p'.log == p.log && p'.role == p.role
  {
    hide PeersInv, VotesInv, RepliesInv, GrantsInv, WinsInv, CandidateOk;
    assert TallyOk(|s.peers|, s.elections[KeyOf(args)], s.events);
  }

  /** Before event x, `v` granted this very request, and the log was not behind the one v had. */
  ghost predicate GrantedBefore(events: seq<Event>, x: int, v: nat, args: VoteArgs, log: seq<LogEntry>)
  {
    exists i :: 0 <= i < x <= |events| && events[i].Granted? && events[i].voter == v && events[i].args == args
                && NotBehind(log, events[i].log)
  }

  /** A winner has a real quorum and an unchanged log: distinct peers forming a majority had
      granted this very request, none with a log that the winner's is behind, and the log of the
      winner is the one with which it had voted for itself and which its request described. */
  lemma WinnerHasQuorum(n: nat, run: seq<Cluster>, k: int, x: int)
    requires IsRun(n, run) && 0 <= k < |run|
    requires 0 <= x < |run[k].events| && run[k].events[x].Won?
    ensures var win := run[k].events[x];
            && 2 * |win.quorum| > n
            && (forall v :: v in win.quorum ==> v < n && GrantedBefore(run[k].events, x, v, win.args, win.log))
            && Describes(win.args, win.log) && win.args.candidate == win.peer
            && Granted(win.peer, win.args, win.log) in run[k].events[..x]
  {
    hide IsRun;
    RunInv(n, run, k);
    var events, win := run[k].events, run[k].events[x];
    assert WinOk(n, win, events[..x]);
    forall v | v in win.quorum ensures GrantedBefore(events, x, v, win.args, win.log) {
      var i := GrantIndex(events, x, v, win.args);
      assert GrantsInv(n, events);
      assert NotBehind(win.log, events[i].log);
    }
  }
}
