/** The Raft object as the code has it: fields updated in place, one method per locked region. */
module RaftObject {
  import opened RaftPeer

  class Raft {
    const me: nat
    const peers: nat
    var term: int
    var votedFor: int
    var log: seq<LogEntry>
    var role: Role
    var commit: int
    var next: seq<int>
    var matched: seq<int>
    var termToIndex: map<int, int>

    function View(): Peer
      reads this
    {
      Peer(me, term, votedFor, log, role, commit, next, matched, termToIndex)
    }

    /** What elections leave alone. */
    function Replica(): (seq<LogEntry>, int, seq<int>, seq<int>, map<int, int>)
      reads this
    {
      (log, commit, next, matched, termToIndex)
    }

    constructor (me: nat, peers: nat)
      ensures View() == Fresh(me) && this.me == me && this.peers == peers
      ensures term == 0 && votedFor == NOBODY && role == Follower && commit == 0
      ensures log == [LogEntry(0, "")] && next == [] && matched == [] && termToIndex == map[0 := 0]
    {
      this.me, this.peers := me, peers;
      term, votedFor, role := 0, NOBODY, Follower;
      log := [LogEntry(0, "")];
      termToIndex := map[0 := 0];
      commit, next, matched := 0, [], [];
    }

    method ConvertToCandidate()
      modifies this
      ensures View() == ToCandidate(old(View()))
      ensures role == Candidate && term == old(term) + 1 && votedFor == me && Replica() == old(Replica())
    {
      role := Candidate;
      term := term + 1;
      votedFor := me;
    }

    method ConvertToFollower(newTerm: int)
      modifies this
      ensures View() == ToFollower(old(View()), newTerm)
      ensures role == Follower && term == newTerm && votedFor == NOBODY && Replica() == old(Replica())
    {
      role := Follower;
      term := newTerm;
      votedFor := NOBODY;
    }

    method ConvertToLeader()
      modifies this
      ensures View() == ToLeader(old(View()), peers)
      ensures role == Leader && term == old(term) && votedFor == old(votedFor) && log == old(log) && commit == old(commit)
      ensures |next| == |matched| == peers && forall i :: 0 <= i < peers ==> next[i] == |log| && matched[i] == 0
    {
      role := Leader;
      next, matched := [], [];
      for i := 0 to peers
        invariant |next| == i && |matched| == i
        invariant forall k :: 0 <= k < i ==> next[k] == |log| && matched[k] == 0
        invariant View().(next := [], matched := []) == old(View()).(role := Leader, next := [], matched := [])
      {
        next := next + [|log|];
        matched := matched + [0];
      }
      assert next == ToLeader(old(View()), peers).next && matched == ToLeader(old(View()), peers).matched;
    }

    /** The first locked region of an election: a new term, and the request to send. */
    method AttemptElection() returns (args: VoteArgs, tally: Tally)
      requires log != []
      modifies this
      ensures View() == ToCandidate(old(View())) && args == VoteRequest(View()) && tally == Tally(1, false)
      ensures term == old(term) + 1 && args.term == term && args.candidate == me && log == old(log)
      ensures args.lastIndex == |log| - 1 && args.lastTerm == log[|log| - 1].term
    {
      ConvertToCandidate();
      tally := Tally(1, false);
      args := VoteArgs(term, me, |log| - 1, log[|log| - 1].term);
    }

    /** The locked region after a vote was answered. */
    method HandleVoteReply(args: VoteArgs, tally: Tally, reply: VoteReply) returns (tally': Tally)
      modifies this
      ensures (View(), tally') == OnVoteReply(old(View()), args, tally, reply, peers)
      ensures log == old(log) && commit == old(commit)
      ensures reply.term > old(term) ==>
                role == Follower && term == reply.term && votedFor == NOBODY && tally' == tally
      ensures reply.term <= old(term) ==>
                && term == old(term) && votedFor == old(votedFor)
                && tally'.votes == tally.votes + (if reply.granted then 1 else 0)
                && (tally'.done != tally.done <==>
                      && reply.granted && !tally.done && 2 * tally'.votes > peers
                      && args.term == term && old(role) == Candidate)
                && role == (if tally'.done != tally.done then Leader else old(role))
    {
      tally' := tally;
      if reply.term > term {
        ConvertToFollower(reply.term);
        return;
      }
      if !reply.granted {
        return;
      }
      tally' := tally'.(votes := tally'.votes + 1);
      if tally'.done || tally'.votes <= peers / 2 {
        return;
      }
      if term == args.term && role == Candidate {
        tally' := tally'.(done := true);
        ConvertToLeader();
      }
    }

    method RequestVote(args: VoteArgs) returns (reply: VoteReply)
      requires log != []
      modifies this
      ensures (View(), reply) == OnVote(old(View()), args)
      ensures Replica() == old(Replica()) && role == old(role)
      ensures term == if args.term > old(term) then args.term else old(term)
      ensures var free := args.term > old(term) || (args.term == old(term) && (old(votedFor) == NOBODY || old(votedFor) == args.candidate));
              && (reply.granted <==>
                    && free
                    && (args.lastTerm > log[|log| - 1].term || (args.lastTerm == log[|log| - 1].term && args.lastIndex >= |log| - 1)))
              && votedFor == (if reply.granted then args.candidate else if args.term > old(term) then NOBODY else old(votedFor))
              && reply.term == (if free && !reply.granted then 0 else term)
    {
      if term > args.term {
        return VoteReply(term, false);
      }
      if term < args.term {
        term := args.term;
        votedFor := NOBODY;
      }
      if votedFor != NOBODY && votedFor != args.candidate {
        return VoteReply(term, false);
      }
      if args.lastTerm > log[|log| - 1].term || (args.lastTerm == log[|log| - 1].term && args.lastIndex >= |log| - 1) {
        reply := VoteReply(term, true);
        votedFor := args.candidate;
      } else {
        reply := VoteReply(0, false);
      }
    }

    method AppendEntries(args: AppendArgs) returns (reply: AppendReply)
      requires args.prevIndex >= 0
      modifies this
      ensures (View(), reply) == OnAppend(old(View()), args)
      ensures next == old(next) && matched == old(matched)
      ensures term == reply.term == if args.term > old(term) then args.term else old(term)
      ensures var current, matches := args.term >= old(term), args.prevIndex < |old(log)| && old(log)[args.prevIndex].term == args.prevTerm;
              && (reply.success <==> current && (old(role) != Follower || matches))
              && (current && old(role) == Follower && matches ==>
                    && log == old(log)[..args.prevIndex + 1] + args.entries && termToIndex == args.termToIndex
                    && (args.commit <= old(commit) ==> commit == old(commit))
                    && (args.commit > old(commit) ==>
                          commit <= args.commit && commit <= |log| - 1 && (commit == args.commit || commit == |log| - 1)))
              && (!(current && old(role) == Follower && matches) ==>
                    log == old(log) && termToIndex == old(termToIndex) && commit == old(commit))
              && (if current && old(role) != Follower then role == Follower && votedFor == NOBODY
                  else role == old(role) && votedFor == old(votedFor))
    {
      if role != Follower {
        if term <= args.term {
          ConvertToFollower(args.term);
          return AppendReply(term, true);
        } else {
          return AppendReply(term, false);
        }
      }
      if term <= args.term {
        term := args.term;
        var index := args.prevIndex;
        if |log| <= index {
          return AppendReply(term, false);
        }
        if log[index].term != args.prevTerm {
          return AppendReply(term, false);
        }
        log := log[..index + 1];
        ghost var kept := log;
        for i := 0 to |args.entries|
          invariant log == kept + args.entries[..i]
          invariant View().(log := kept) == old(View()).(term := args.term, log := kept)
        {
          log := log + [args.entries[i]];
        }
        assert args.entries[..|args.entries|] == args.entries;
        termToIndex := args.termToIndex;
        if args.commit > commit {
          if args.commit < |log| - 1 {
            commit := args.commit;
          } else {
            commit := |log| - 1;
          }
        }
        reply := AppendReply(term, true);
      } else {
        reply := AppendReply(term, false);
      }
    }

    /** The locked region that builds the request for peer i. */
    method BuildAppend(i: nat) returns (args: AppendArgs)
      requires i < |next| && 1 <= next[i] <= |log|
      ensures args == AppendRequest(View(), i)
      ensures args.term == term && args.leader == me && args.commit == commit && args.termToIndex == termToIndex
      ensures args.prevIndex == next[i] - 1 && args.prevTerm == log[args.prevIndex].term
      ensures log == log[..args.prevIndex + 1] + args.entries
    {
      args := AppendArgs(term, me, next[i] - 1, log[next[i] - 1].term, log[next[i]..], commit, termToIndex);
    }

    /** The locked region after an append was answered; `count` and `done` belong to the round. */
    method HandleAppendReply(args: AppendArgs, i: nat, reply: AppendReply, count: nat, done: bool)
      returns (count': nat, done': bool)
      requires i < |next| && i < |matched|
      modifies this
      ensures View() == OnAppendReply(old(View()), args, i, reply, reply.success && !done && count + 1 > peers / 2)
      ensures log == old(log) && termToIndex == old(termToIndex)
      ensures reply.success ==>
                && next == old(next)[i := |log|] && matched == old(matched)[i := |log| - 1] && role == old(role) && term == old(term)
                && commit == (if done' != done then |log| - 1 else old(commit))
      ensures !reply.success ==> matched == old(matched) && commit == old(commit)
      ensures !reply.success && reply.term > old(term) ==>
                role == Follower && term == reply.term && votedFor == NOBODY && next == old(next)
      ensures !reply.success && reply.term <= old(term) ==>
                && role == old(role) && term == old(term) && votedFor == old(votedFor)
                && next == old(next)[i := next[i]] && FirstBelow(termToIndex, args.prevTerm, next[i])
      ensures count' == count + (if reply.success then 1 else 0)
      ensures done' == (done || (reply.success && count' > peers / 2))
    {
      count', done' := count, done;
      if !reply.success {
        if reply.term > term {
          ConvertToFollower(reply.term);
        } else {
          next := next[i := 1];
          var t := args.prevTerm - 1;
          while t > 0
            invariant t < args.prevTerm && forall u :: t < u < args.prevTerm && u > 0 ==> Lookup(termToIndex, u) == 0
            invariant View() == old(View()).(next := old(next)[i := 1])
            invariant BackOff(termToIndex, args.prevTerm - 1) == BackOff(termToIndex, t)
            decreases t
          {
            if Lookup(termToIndex, t) != 0 {
              next := next[i := Lookup(termToIndex, t)];
              return;
            }
            t := t - 1;
          }
        }
      } else {
        next := next[i := |log|];
        matched := matched[i := |log| - 1];
        count' := count' + 1;
        if done || count' <= peers / 2 {
          return;
        }
        done' := true;
        commit := |log| - 1;
      }
    }

    method Start(command: Command) returns (index: int, atTerm: int, isLeader: bool)
      requires log != []
      modifies this
      ensures View() == OnCommand(old(View()), command)
      ensures atTerm == term == old(term) && isLeader == (role == Leader) && index == |log| - 1
      ensures role == old(role) && votedFor == old(votedFor) && commit == old(commit) && next == old(next)
      ensures isLeader ==> log[..index] == old(log) && log[index].term == term && log[index].command == command
      ensures isLeader ==> forall t :: t in termToIndex || t in old(termToIndex) ==>
                Lookup(termToIndex, t) ==
                  if t == term && old(log)[|old(log)| - 1].term != term then index else Lookup(old(termToIndex), t)
      ensures !isLeader ==> log == old(log) && termToIndex == old(termToIndex)
    {
      atTerm := term;
      index := |log| - 1;
      isLeader := role == Leader;
      if isLeader {
        if term != log[|log| - 1].term {
          termToIndex := termToIndex[term := |log|];
        }
        log := log + [LogEntry(term, command)];
        index := index + 1;
      }
    }
  }
}
