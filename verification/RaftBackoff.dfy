/** Rejected appends back off until the follower's log is the leader's. */
module RaftBackoff {
  import opened RaftPeer
  import opened RaftLogs

  /** A leader's log: the sentinel is the only entry of term 0, and terms are ordered. */
  ghost predicate LeaderLog(log: seq<LogEntry>)
  {
    log != [] && log[0].term == 0 && Ordered(log) && forall i :: 1 <= i < |log| ==> log[i].term > 0
  }

  ghost predicate IsFirst(log: seq<LogEntry>, i: int, t: int)
  {
    1 <= i < |log| && log[i].term == t && forall j :: 1 <= j < i ==> log[j].term != t
  }

  /** The map holds the first index of each term of the log, and nothing else above term 0. */
  ghost predicate FirstIndexes(log: seq<LogEntry>, m: map<int, int>)
  {
    && (forall t :: t > 0 && Lookup(m, t) != 0 ==> IsFirst(log, Lookup(m, t), t))
    && (forall i :: 1 <= i < |log| ==> Lookup(m, log[i].term) != 0)
  }

  /** Entries with the same index and term have the same logs up to them. */
  ghost predicate Matching(a: seq<LogEntry>, b: seq<LogEntry>)
  {
    forall i :: 0 <= i < |a| && i < |b| && a[i].term == b[i].term ==> a[..i + 1] == b[..i + 1]
  }

  /** The setting: leader l replicates to follower f, whose index is i. */
  ghost predicate Pair(l: Peer, f: Peer, i: nat)
  {
    && LeaderLog(l.log) && FirstIndexes(l.log, l.termToIndex)
    && i < |l.next| && i < |l.matched| && 1 <= l.next[i] <= |l.log|
    && f.role == Follower && f.term <= l.term
    && f.log != [] && f.log[0].term == 0 && Matching(l.log, f.log)
  }

  /** One round: the leader sends, the follower answers, the leader takes the answer. */
  function Round(l: Peer, f: Peer, i: nat, commits: bool): (Peer, Peer, bool)
    requires i < |l.next| && i < |l.matched| && 1 <= l.next[i] <= |l.log|
  {
    var args := AppendRequest(l, i);
    var (f', reply) := OnAppend(f, args);
    (OnAppendReply(l, args, i, reply, commits), f', reply.success)
  }

  function PrevTerm(l: Peer, i: nat): int
    requires i < |l.next| && 1 <= l.next[i] <= |l.log|
  {
    l.log[l.next[i] - 1].term
  }

  /** The back-off ends at the index of the greatest term below that has one. */
  lemma {:induction false} BackOffFinds(m: map<int, int>, t: int)
    ensures FirstBelow(m, t + 1, BackOff(m, t))
    decreases if t > 0 then t else 0
  {
    if t > 0 && Lookup(m, t) == 0 {
      BackOffFinds(m, t - 1);
    }
  }

  /** u is the greatest term below t in the log, not counting the sentinel. */
  ghost predicate GreatestBelow(log: seq<LogEntry>, u: int, t: int)
  {
    && (exists j :: 1 <= j < |log| && log[j].term == u && u < t)
    && forall j :: 1 <= j < |log| && log[j].term < t ==> log[j].term <= u
  }

  /** In a leader's log that index is the first of the greatest term below, or 1. */
  lemma FirstBelowIsFirst(log: seq<LogEntry>, m: map<int, int>, t: int, r: int)
    requires LeaderLog(log) && FirstIndexes(log, m) && FirstBelow(m, t, r)
    ensures (exists u :: GreatestBelow(log, u, t) && IsFirst(log, r, u))
         || (r == 1 && forall j :: 1 <= j < |log| ==> log[j].term >= t)
  {
    if u :| 0 < u < t && r == Lookup(m, u) != 0 && forall w :: u < w < t ==> Lookup(m, w) == 0 {
      assert IsFirst(log, r, u);
      assert GreatestBelow(log, u, t);
    }
  }

  /** After a rejection in the leader's term the next index is the first index of the greatest
      term of its log below the one rejected, or 1 if there is none. */
  lemma NextAfterRejection(p: Peer, args: AppendArgs, i: nat, reply: AppendReply, commits: bool)
    requires LeaderLog(p.log) && FirstIndexes(p.log, p.termToIndex) && i < |p.next| && i < |p.matched|
    requires !reply.success && reply.term <= p.term
    ensures var next := OnAppendReply(p, args, i, reply, commits).next;
            && |next| == |p.next| && (forall k :: 0 <= k < |next| && k != i ==> next[k] == p.next[k])
            && ((exists u :: GreatestBelow(p.log, u, args.prevTerm) && IsFirst(p.log, next[i], u))
                || (next[i] == 1 && forall j :: 1 <= j < |p.log| ==> p.log[j].term >= args.prevTerm))
  {
    var r := BackOff(p.termToIndex, args.prevTerm - 1);
    BackOffFinds(p.termToIndex, args.prevTerm - 1);
    FirstBelowIsFirst(p.log, p.termToIndex, args.prevTerm, r);
    hide LeaderLog, FirstIndexes, FirstBelow, GreatestBelow, IsFirst, BackOff;
    assert OnAppendReply(p, args, i, reply, commits).next == p.next[i := r];
  }

  /** Backing off from a term leads into range, just behind an entry of a lower term. */
  lemma BackOffLowers(log: seq<LogEntry>, m: map<int, int>, t: int)
    requires LeaderLog(log) && FirstIndexes(log, m) && t > 0
    ensures var r := BackOff(m, t - 1);
            && 1 <= r <= |log| && log[r - 1].term < t
            && ((exists u :: GreatestBelow(log, u, t) && IsFirst(log, r, u))
                || (r == 1 && forall j :: 1 <= j < |log| ==> log[j].term >= t))
  {
    BackOffFinds(m, t - 1);
    var r := BackOff(m, t - 1);
    FirstBelowIsFirst(log, m, t, r);
    if u :| GreatestBelow(log, u, t) && IsFirst(log, r, u) {
      assert log[r - 1].term <= log[r].term;
    }
  }

  /** A rejection keeps both logs, and strictly lowers the term the leader tries next. */
  lemma RejectionLowers(l: Peer, f: Peer, i: nat, commits: bool)
    requires Pair(l, f, i) && !Round(l, f, i, commits).2
    ensures var (l', f', _) := Round(l, f, i, commits);
            Pair(l', f', i) && l'.log == l.log && f'.log == f.log && PrevTerm(l', i) < PrevTerm(l, i)
  {
    var args := AppendRequest(l, i);
    assert args.prevIndex > 0;
    BackOffLowers(l.log, l.termToIndex, args.prevTerm);
  }

  /** An acceptance makes the logs equal. */
  lemma AcceptanceCopies(l: Peer, f: Peer, i: nat, commits: bool)
    requires Pair(l, f, i) && Round(l, f, i, commits).2
    ensures var (l', f', _) := Round(l, f, i, commits);
            f'.log == l.log && l'.log == l.log && i < |l'.next| && l'.next[i] == |l.log|
  {
    hide BackOff, NewCommit, FirstIndexes;
    var k := l.next[i] - 1;
    assert l.log[..k + 1] == f.log[..k + 1];
    hide Matching, LeaderLog;
    assert l.log == l.log[..k + 1] + l.log[k + 1..];
  }

  /** The terms of the log up to t. */
  ghost function TermsUpTo(log: seq<LogEntry>, t: int): set<int>
  {
    set i | 0 <= i < |log| && log[i].term <= t :: log[i].term
  }

  ghost function TermsOf(log: seq<LogEntry>): set<int>
  {
    set i | 0 <= i < |log| :: log[i].term
  }

  lemma LowerTermLeft(log: seq<LogEntry>, k: int, k': int)
    requires 0 <= k < |log| && 0 <= k' < |log| && log[k'].term < log[k].term
    ensures |TermsUpTo(log, log[k'].term)| < |TermsUpTo(log, log[k].term)|
  {
    var a, b := TermsUpTo(log, log[k'].term), TermsUpTo(log, log[k].term);
    assert log[k].term in b && log[k].term !in a;
    assert a <= b;
    assert |b - a| == |b| - |a|;
  }

  /** The state after n rounds, the first of them being number `at`. */
  function Play(l: Peer, f: Peer, i: nat, commits: nat -> bool, at: nat, n: nat): (Peer, Peer)
    decreases n
  {
    if n == 0 || !(i < |l.next| && i < |l.matched| && 1 <= l.next[i] <= |l.log|) then (l, f)
    else
      var (l', f', _) := Round(l, f, i, commits(at));
      Play(l', f', i, commits, at + 1, n - 1)
  }

  /** After at most as many rounds as the leader's log has terms, the follower's log is the
      leader's, and the leader has nothing left to send. */
  lemma {:induction false} BackOffConverges(l: Peer, f: Peer, i: nat, commits: nat -> bool, at: nat) returns (n: nat)
    requires Pair(l, f, i)
    ensures n <= |TermsUpTo(l.log, PrevTerm(l, i))| <= |TermsOf(l.log)|
    ensures var (l', f') := Play(l, f, i, commits, at, n);
            f'.log == l.log && l'.log == l.log && i < |l'.next| && l'.next[i] == |l.log|
    decreases |TermsUpTo(l.log, PrevTerm(l, i))|
  {
    hide Pair, Round, TermsUpTo, TermsOf;
    PairFacts(l, f, i);
    var (l', f', ok) := Round(l, f, i, commits(at));
    SomeTerm(l.log, l.next[i] - 1);
    TermsUpToBound(l.log, PrevTerm(l, i));
    if ok {
      AcceptanceCopies(l, f, i, commits(at));
      n := 1;
      assert Play(l', f', i, commits, at + 1, 0) == (l', f');
    } else {
      RejectionLowers(l, f, i, commits(at));
      PairFacts(l', f', i);
      LowerTermLeft(l.log, l.next[i] - 1, l'.next[i] - 1);
      var m := BackOffConverges(l', f', i, commits, at + 1);
      n := m + 1;
    }
  }

  lemma PairFacts(l: Peer, f: Peer, i: nat)
    requires Pair(l, f, i)
    ensures i < |l.next| && i < |l.matched| && 1 <= l.next[i] <= |l.log|
  {
  }

  lemma SomeTerm(log: seq<LogEntry>, k: int)
    requires 0 <= k < |log|
    ensures |TermsUpTo(log, log[k].term)| >= 1
  {
    assert log[k].term in TermsUpTo(log, log[k].term);
  }

  /** No more terms are tried than the log has. */
  lemma TermsUpToBound(log: seq<LogEntry>, t: int)
    ensures |TermsUpTo(log, t)| <= |TermsOf(log)|
  {
    var a, b := TermsUpTo(log, t), TermsOf(log);
    assert a <= b;
    assert |b - a| == |b| - |a|;
  }

  /** A leader's own appends keep the map of first indexes right. */
  lemma CommandKeepsFirstIndexes(p: Peer, command: Command)
    requires p.role == Leader && LeaderLog(p.log) && FirstIndexes(p.log, p.termToIndex)
    requires p.term > 0 && LastTerm(p.log) <= p.term
    ensures var q := OnCommand(p, command);
            LeaderLog(q.log) && FirstIndexes(q.log, q.termToIndex)
  {
    var q := OnCommand(p, command);
    var n := |p.log|;
    forall i, j | 0 <= i < j < |q.log| ensures q.log[i].term <= q.log[j].term {
      if j == n { assert p.log[i].term <= LastTerm(p.log); }
    }
    forall t | t > 0 && Lookup(q.termToIndex, t) != 0 ensures IsFirst(q.log, Lookup(q.termToIndex, t), t) {
      if t == p.term && p.term != LastTerm(p.log) {
        forall j | 1 <= j < n ensures q.log[j].term != t {
          assert p.log[j].term <= LastTerm(p.log);
        }
      } else {
        assert IsFirst(p.log, Lookup(p.termToIndex, t), t);
      }
    }
    forall i | 1 <= i < |q.log| ensures Lookup(q.termToIndex, q.log[i].term) != 0 {
      if i < n {
        assert Lookup(p.termToIndex, p.log[i].term) != 0;
      } else if p.term == LastTerm(p.log) {
        assert Lookup(p.termToIndex, p.log[n - 1].term) != 0;
      }
    }
  }
}
