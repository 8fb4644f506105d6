/** checkParallel: one goroutine per partition, a result channel, a kill flag and a timeout.
    A run is any interleaving of the workers with the receiving loop. */
module Parallel {
  import opened Collections
  import opened Linearizability
  import Search
  import opened Checker

  datatype CheckResult = Unknown | Ok | Illegal

  /** What the call was given; `timeout` says whether one was set. */
  datatype Task<!S, !I, !O> = Task(model: Model<S, I, O>, history: seq<seq<Entry<I, O>>>, computeInfo: bool, timeout: bool)

  datatype Answer = Answer(ok: bool, longest: seq<Option<seq<int>>>)

  /** `looked` are the results the first loop received, `drained` those received after it. */
  datatype Phase = Looping | Exited | Returned(result: CheckResult)
  datatype State = State(
    kill: bool, sent: map<int, Answer>, looked: set<int>, drained: set<int>, ok: bool, timedOut: bool, phase: Phase)

  ghost predicate Proper<S, I, O>(t: Task<S, I, O>)
  {
    forall i :: 0 <= i < |t.history| ==> WellFormed(t.history[i])
  }

  function Start(): State
  {
    State(false, map[], {}, {}, true, false, Looping)
  }

  // ---------- the steps ----------

  datatype Step =
    | Send(worker: int, answer: Answer, killed: bool)
    | Receive(worker: int)
    | TimeOut
    | Drain(worker: int)
    | Return

  ghost predicate Enabled<S, I, O>(t: Task<S, I, O>, s: State, step: Step)
    requires Proper(t)
  {
    match step
    // A worker finishes. It can only have seen the kill flag if the flag is set by now.
    case Send(i, answer, killed) =>
      && 0 <= i < |t.history| && i !in s.sent
      && Verdict(t.model, t.history[i], t.computeInfo, killed, answer.ok, answer.longest)
      && (killed ==> s.kill)
    case Receive(i) => s.phase.Looping? && i in s.sent && i !in s.looked
    case TimeOut => s.phase.Looping? && t.timeout
    case Drain(i) =>
      s.phase.Exited? && t.computeInfo && |s.looked| + |s.drained| < |t.history| && i in s.sent && i !in s.looked && i !in s.drained
    case Return =>
      s.phase.Exited? && (t.computeInfo ==> |s.looked| + |s.drained| >= |t.history|)
  }

  function Apply<S, I, O>(t: Task<S, I, O>, s: State, step: Step): State
  {
    match step
    case Send(i, answer, _) => s.(sent := s.sent[i := answer])
    case Receive(i) =>
      var ok := s.ok && i in s.sent && s.sent[i].ok;
      var s' := s.(looked := s.looked + {i}, ok := ok);
      if !ok && !t.computeInfo then s'.(kill := true, phase := Exited)
      else if |s.looked + {i}| >= |t.history| then s'.(phase := Exited)
      else s'
    case TimeOut => s.(timedOut := true, kill := true, phase := Exited)
    case Drain(i) => s.(drained := s.drained + {i})
    case Return =>
      s.(phase := Returned(if !s.ok then Illegal else if s.timedOut then Unknown else Ok))
  }

  /** A run: the states after each of its steps, from the start. */
  ghost predicate IsRun<S, I, O>(t: Task<S, I, O>, run: seq<State>)
    requires Proper(t)
  {
    && run != [] && run[0] == Start()
    && forall k :: 0 <= k < |run| - 1 ==> StepAt(t, run, k)
  }

  ghost predicate StepAt<S, I, O>(t: Task<S, I, O>, run: seq<State>, k: int)
    requires Proper(t) && 0 <= k < |run| - 1
  {
    Follows(t, run[k], run[k + 1])
  }

  ghost predicate Follows<S, I, O>(t: Task<S, I, O>, s: State, s': State)
    requires Proper(t)
  {
    exists step :: Enabled(t, s, step) && s' == Apply(t, s, step)
  }

  // ---------- the invariant ----------

  ghost predicate Genuine<S, I, O>(t: Task<S, I, O>, s: State, i: int)
    requires Proper(t)
  {
    0 <= i < |t.history| && i in s.sent && (s.sent[i].ok <==> LinearizableEntries(t.model, t.history[i]))
  }

  /** As long as nobody was killed, every answer is genuine; those looked at always are. */
  ghost predicate AnswersInv<S, I, O>(t: Task<S, I, O>, s: State)
    requires Proper(t)
  {
    && (forall i :: i in s.sent ==> 0 <= i < |t.history| && Search.LongestInv(t.model, t.history[i], s.sent[i].longest))
    && (!s.kill ==> forall i :: i in s.sent ==> Genuine(t, s, i))
    && (forall i :: i in s.looked ==> Genuine(t, s, i))
    && (s.ok <==> forall i :: i in s.looked ==> s.sent[i].ok)
  }

  /** The loop runs only while nobody was killed, and is left without a timeout or a false
      result only when every result was received. */
  ghost predicate PhaseInv(computeInfo: bool, timeout: bool, n: nat, s: State)
  {
    && (forall i :: i in s.sent ==> 0 <= i < n)
    && (forall i :: i in s.looked + s.drained ==> i in s.sent)
    && s.looked !! s.drained
    && (s.phase.Looping? ==> !s.kill && !s.timedOut && s.drained == {} && (s.looked == {} || |s.looked| < n))
    && (!s.phase.Looping? ==> n > 0 || timeout)
    && (!s.phase.Looping? && s.ok && !s.timedOut ==> |s.looked| >= n)
    && (s.timedOut ==> timeout)
    && (s.phase.Returned? ==>
          && s.phase.result == (if !s.ok then Illegal else if s.timedOut then Unknown else Ok)
          && (computeInfo ==> |s.looked| + |s.drained| >= n))
  }

  ghost predicate Inv<S, I, O>(t: Task<S, I, O>, s: State)
    requires Proper(t)
  {
    AnswersInv(t, s) && PhaseInv(t.computeInfo, t.timeout, |t.history|, s)
  }

  lemma StartInv<S, I, O>(t: Task<S, I, O>)
    requires Proper(t)
    ensures Inv(t, Start())
  {
  }

  lemma SendAnswers<S, I, O>(t: Task<S, I, O>, s: State, i: int, answer: Answer, killed: bool)
    requires Proper(t) && AnswersInv(t, s) && Enabled(t, s, Send(i, answer, killed))
    ensures AnswersInv(t, s.(sent := s.sent[i := answer]))
  {
    hide Search.LongestInv, LinearizableEntries, WellFormed;
    VerdictFacts(t, i, answer, killed);
    var s' := s.(sent := s.sent[i := answer]);
    forall j | j in s'.sent && Genuine(t, s, j) && j != i ensures Genuine(t, s', j) {
    }
    assert !s.kill ==> Genuine(t, s', i);
    assert forall j :: j in s.looked ==> Genuine(t, s, j);
  }

  lemma ReceiveAnswers<S, I, O>(t: Task<S, I, O>, s: State, i: int, kill: bool, phase: Phase)
    requires Proper(t) && AnswersInv(t, s) && !s.kill && i in s.sent
    ensures AnswersInv(t, s.(looked := s.looked + {i}, ok := s.ok && s.sent[i].ok, kill := kill, phase := phase))
  {
    hide Search.LongestInv, LinearizableEntries, WellFormed;
    var s' := s.(looked := s.looked + {i}, ok := s.ok && s.sent[i].ok, kill := kill, phase := phase);
    assert forall j :: j in s.sent && Genuine(t, s, j) ==> Genuine(t, s', j);
  }

  /** Steps that change neither the answers nor what the loop looked at. */
  lemma OtherAnswers<S, I, O>(t: Task<S, I, O>, s: State, s': State)
    requires Proper(t) && AnswersInv(t, s)
    requires s'.sent == s.sent && s'.looked == s.looked && s'.ok == s.ok && (s.kill ==> s'.kill)
    ensures AnswersInv(t, s')
  {
    hide Search.LongestInv, LinearizableEntries, WellFormed;
    assert forall j :: Genuine(t, s, j) ==> Genuine(t, s', j);
  }

  lemma ReceivePhase(computeInfo: bool, timeout: bool, n: nat, s: State, i: int, ok: bool)
    requires PhaseInv(computeInfo, timeout, n, s) && s.phase.Looping? && i in s.sent && i !in s.looked
    requires ok ==> s.ok
    ensures var s' := s.(looked := s.looked + {i}, ok := ok);
            && (!ok && !computeInfo ==> PhaseInv(computeInfo, timeout, n, s'.(kill := true, phase := Exited)))
            && (|s.looked + {i}| >= n ==> PhaseInv(computeInfo, timeout, n, s'.(phase := Exited)))
            && (|s.looked + {i}| < n ==> PhaseInv(computeInfo, timeout, n, s'))
  {
  }

  lemma DrainPhase(computeInfo: bool, timeout: bool, n: nat, s: State, i: int)
    requires PhaseInv(computeInfo, timeout, n, s) && s.phase.Exited? && i in s.sent && i !in s.looked
    ensures PhaseInv(computeInfo, timeout, n, s.(drained := s.drained + {i}))
  {
  }

  lemma SendPhase(computeInfo: bool, timeout: bool, n: nat, s: State, i: int, answer: Answer)
    requires PhaseInv(computeInfo, timeout, n, s) && 0 <= i < n
    ensures PhaseInv(computeInfo, timeout, n, s.(sent := s.sent[i := answer]))
  {
  }

  lemma TimeOutPhase(computeInfo: bool, n: nat, s: State)
    requires PhaseInv(computeInfo, true, n, s) && s.phase.Looping?
    ensures PhaseInv(computeInfo, true, n, s.(timedOut := true, kill := true, phase := Exited))
  {
  }

  lemma ReturnPhase(computeInfo: bool, timeout: bool, n: nat, s: State)
    requires PhaseInv(computeInfo, timeout, n, s) && s.phase.Exited?
    requires computeInfo ==> |s.looked| + |s.drained| >= n
    ensures PhaseInv(computeInfo, timeout, n,
                     s.(phase := Returned(if !s.ok then Illegal else if s.timedOut then Unknown else Ok)))
  {
  }

  lemma StepPhase<S, I, O>(t: Task<S, I, O>, s: State, step: Step)
    requires Proper(t) && PhaseInv(t.computeInfo, t.timeout, |t.history|, s) && Enabled(t, s, step)
    ensures PhaseInv(t.computeInfo, t.timeout, |t.history|, Apply(t, s, step))
    ensures s.phase.Looping? ==> !s.kill
  {
    assert s.phase.Looping? ==> !s.kill;
    hide PhaseInv, WellFormed, Verdict;
    var n := |t.history|;
    match step
    case Send(i, answer, killed) => SendPhase(t.computeInfo, t.timeout, n, s, i, answer);
    case Receive(i) => ReceivePhase(t.computeInfo, t.timeout, n, s, i, s.ok && s.sent[i].ok);
    case TimeOut => TimeOutPhase(t.computeInfo, n, s);
    case Drain(i) => DrainPhase(t.computeInfo, t.timeout, n, s, i);
    case Return => ReturnPhase(t.computeInfo, t.timeout, n, s);
  }

  lemma StepInv<S, I, O>(t: Task<S, I, O>, s: State, step: Step)
    requires Proper(t) && Inv(t, s) && Enabled(t, s, step)
    ensures Inv(t, Apply(t, s, step))
  {
    hide AnswersInv, PhaseInv, Verdict, WellFormed;
    StepPhase(t, s, step);
    var s' := Apply(t, s, step);
    match step
    case Send(i, answer, killed) => SendAnswers(t, s, i, answer, killed);
    case Receive(i) => ReceiveAnswers(t, s, i, s'.kill, s'.phase);
    case TimeOut => OtherAnswers(t, s, s');
    case Drain(i) => OtherAnswers(t, s, s');
    case Return => OtherAnswers(t, s, s');
  }

  lemma VerdictFacts<S, I, O>(t: Task<S, I, O>, i: int, answer: Answer, killed: bool)
    requires Proper(t) && 0 <= i < |t.history|
    requires Verdict(t.model, t.history[i], t.computeInfo, killed, answer.ok, answer.longest)
    ensures Search.LongestInv(t.model, t.history[i], answer.longest)
    ensures !killed ==> (answer.ok <==> LinearizableEntries(t.model, t.history[i]))
    ensures !killed && t.computeInfo ==> LongestPossible(t.model, t.history[i], answer.longest)
  {
    if !killed && t.computeInfo {
      UnkilledIsLongest(t.model, t.history[i], answer.ok, answer.longest);
    }
  }

  /** Every state of every run satisfies the invariant. */
  lemma {:induction false} RunInv<S, I, O>(t: Task<S, I, O>, run: seq<State>, k: int)
    requires Proper(t) && IsRun(t, run) && 0 <= k < |run|
    ensures Inv(t, run[k])
  {
    hide Inv, WellFormed, Enabled, Apply;
    if k == 0 {
      StartInv(t);
    } else {
      RunInv(t, run, k - 1);
      assert StepAt(t, run, k - 1);
      var step :| Enabled(t, run[k - 1], step) && run[k] == Apply(t, run[k - 1], step);
      StepInv(t, run[k - 1], step);
    }
  }

  // ---------- what the verdict means ----------

  /** Whatever the interleaving: Ok only if every partition is linearizable, Illegal only if
      some partition is not, Unknown only after a timeout. A killed worker decides nothing. */
  lemma VerdictsAreGenuine<S, I, O>(t: Task<S, I, O>, run: seq<State>, k: int)
    requires Proper(t) && IsRun(t, run) && 0 <= k < |run| && run[k].phase.Returned?
    ensures run[k].phase.result == Ok ==>
      forall i :: 0 <= i < |t.history| ==> LinearizableEntries(t.model, t.history[i])
    ensures run[k].phase.result == Illegal ==>
      exists i :: 0 <= i < |t.history| && !LinearizableEntries(t.model, t.history[i])
    ensures run[k].phase.result == Unknown ==> t.timeout
  {
    hide WellFormed, LinearizableEntries, IsRun;
    RunInv(t, run, k);
    var s := run[k];
    if s.phase.result == Ok {
      FullRange(s.looked, |t.history|);
      assert forall i :: 0 <= i < |t.history| ==> Genuine(t, s, i);
    }
    if s.phase.result == Illegal {
      var i :| i in s.looked && !s.sent[i].ok;
      assert Genuine(t, s, i);
    }
  }

  /** With information asked for, only a timeout kills; until then every answer has a longest
      prefix for each operation. */
  ghost predicate BestInv<S, I, O>(t: Task<S, I, O>, s: State)
    requires Proper(t)
  {
    t.computeInfo && !s.timedOut ==>
      && !s.kill
      && forall i :: i in s.sent ==> 0 <= i < |t.history| && LongestPossible(t.model, t.history[i], s.sent[i].longest)
  }

  lemma BestStep<S, I, O>(t: Task<S, I, O>, s: State, step: Step)
    requires Proper(t) && BestInv(t, s) && Enabled(t, s, step)
    ensures BestInv(t, Apply(t, s, step))
  {
    hide LongestPossible, WellFormed, LinearizableEntries, Search.LongestInv, Verdict;
    if step.Send? {
      VerdictFacts(t, step.worker, step.answer, step.killed);
    }
  }

  lemma {:induction false} BestRun<S, I, O>(t: Task<S, I, O>, run: seq<State>, k: int)
    requires Proper(t) && IsRun(t, run) && 0 <= k < |run|
    ensures BestInv(t, run[k])
  {
    hide WellFormed, Enabled, Apply;
    if k > 0 {
      hide BestInv;
      BestRun(t, run, k - 1);
      assert StepAt(t, run, k - 1);
      var step :| Enabled(t, run[k - 1], step) && run[k] == Apply(t, run[k - 1], step);
      BestStep(t, run[k - 1], step);
    }
  }

  /** When the partial linearizations are collected, every worker has finished, each of the
      prefixes collected is a legal one that contains its operation, and, unless there was a
      timeout, none could be longer. */
  lemma InfoIsComplete<S, I, O>(t: Task<S, I, O>, run: seq<State>, k: int)
    requires Proper(t) && IsRun(t, run) && 0 <= k < |run| && run[k].phase.Returned? && t.computeInfo
    ensures forall i :: 0 <= i < |t.history| ==>
      i in run[k].sent && Search.LongestInv(t.model, t.history[i], run[k].sent[i].longest)
    ensures !run[k].timedOut ==> forall i :: 0 <= i < |t.history| ==>
      LongestPossible(t.model, t.history[i], run[k].sent[i].longest)
  {
    hide WellFormed, Search.LongestInv, LinearizableEntries, IsRun, LongestPossible;
    RunInv(t, run, k);
    BestRun(t, run, k);
    var s := run[k];
    assert |s.looked + s.drained| == |s.looked| + |s.drained|;
    FullRange(s.looked + s.drained, |t.history|);
  }

  // ---------- the call returns ----------

  /** A worker that has not sent can always finish, whatever the kill flag. */
  lemma WorkerFinishes<S, I, O>(t: Task<S, I, O>, s: State, i: int) returns (step: Step)
    requires Proper(t) && 0 <= i < |t.history| && i !in s.sent
    ensures Enabled(t, s, step)
  {
    hide WellFormed, Verdict;
    var ok, longest := AnswerExists(t.model, t.history[i], t.computeInfo);
    step := Send(i, Answer(ok, longest), false);
  }

  /** While the loop runs, its next result can be sent or received if there are partitions. */
  lemma LoopStep<S, I, O>(t: Task<S, I, O>, s: State) returns (step: Step)
    requires Proper(t) && PhaseInv(t.computeInfo, t.timeout, |t.history|, s) && s.phase.Looping?
    requires |t.history| > 0 || t.timeout
    ensures Enabled(t, s, step)
  {
    hide WellFormed;
    if t.timeout {
      step := TimeOut;
    } else {
      var i := Missing(s.looked, |t.history|);
      if i in s.sent {
        step := Receive(i);
      } else {
        step := WorkerFinishes(t, s, i);
      }
    }
  }

  /** After the loop the call drains what is left, if it has to, and returns. */
  lemma ExitStep<S, I, O>(t: Task<S, I, O>, s: State) returns (step: Step)
    requires Proper(t) && PhaseInv(t.computeInfo, t.timeout, |t.history|, s) && s.phase.Exited?
    ensures Enabled(t, s, step)
  {
    hide WellFormed;
    if t.computeInfo && |s.looked| + |s.drained| < |t.history| {
      assert |s.looked + s.drained| == |s.looked| + |s.drained|;
      var i := Missing(s.looked + s.drained, |t.history|);
      if i in s.sent {
        step := Drain(i);
      } else {
        step := WorkerFinishes(t, s, i);
      }
    } else {
      step := Step.Return;
    }
  }

  ghost predicate CanStep<S, I, O>(t: Task<S, I, O>, s: State)
    requires Proper(t)
  {
    exists step :: Enabled(t, s, step)
  }

  /** In every reachable state of a call that has not returned, something can happen if and only
      if there are partitions, a timeout is set, or the loop was left. */
  lemma StepPossibleIff<S, I, O>(t: Task<S, I, O>, run: seq<State>, k: int)
    requires Proper(t) && IsRun(t, run) && 0 <= k < |run| && !run[k].phase.Returned?
    ensures CanStep(t, run[k]) <==> |t.history| > 0 || t.timeout || run[k].phase.Exited?
  {
    hide WellFormed, AnswersInv, IsRun, Verdict;
    RunInv(t, run, k);
    if run[k].phase.Exited? {
      var step := ExitStep(t, run[k]);
    } else if |t.history| > 0 || t.timeout {
      var step := LoopStep(t, run[k]);
    }
  }

  function PhaseRank(phase: Phase): nat
  {
    match phase
    case Looping => 0
    case Exited => 1
    case Returned(_) => 2
  }

  /** How much has happened. */
  function Progress(s: State): nat
  {
    |s.sent.Keys| + |s.looked| + |s.drained| + PhaseRank(s.phase)
  }

  lemma StepProgress<S, I, O>(t: Task<S, I, O>, s: State, step: Step)
    requires Proper(t) && Enabled(t, s, step)
    ensures Progress(Apply(t, s, step)) > Progress(s)
  {
    hide WellFormed, Verdict;
    match step
    case Send(i, answer, _) =>
      AddsOne(s.sent.Keys, i);
      assert s.sent[i := answer].Keys == s.sent.Keys + {i};
    case Receive(i) => AddsOne(s.looked, i);
    case TimeOut =>
    case Drain(i) => AddsOne(s.drained, i);
    case Return =>
  }

  lemma ProgressBound(computeInfo: bool, timeout: bool, n: nat, s: State)
    requires PhaseInv(computeInfo, timeout, n, s)
    ensures Progress(s) <= 2 * n + 2
  {
    AtMost(s.sent.Keys, n);
    AtMost(s.looked + s.drained, n);
    assert |s.looked + s.drained| == |s.looked| + |s.drained|;
  }

  lemma {:induction false} RunProgress<S, I, O>(t: Task<S, I, O>, run: seq<State>, k: int)
    requires Proper(t) && IsRun(t, run) && 0 <= k < |run|
    ensures Progress(run[k]) >= k
  {
    hide WellFormed, Enabled, Apply, Progress;
    if k > 0 {
      RunProgress(t, run, k - 1);
      assert StepAt(t, run, k - 1);
      var step :| Enabled(t, run[k - 1], step) && run[k] == Apply(t, run[k - 1], step);
      StepProgress(t, run[k - 1], step);
    }
  }

  /** No run has more than two steps for each partition and two more. */
  lemma RunsAreBounded<S, I, O>(t: Task<S, I, O>, run: seq<State>)
    requires Proper(t) && IsRun(t, run)
    ensures |run| <= 2 * |t.history| + 3
  {
    var last := |run| - 1;
    RunProgress(t, run, last);
    RunInv(t, run, last);
    hide WellFormed, IsRun, PhaseInv, AnswersInv, Progress;
    ProgressBound(t.computeInfo, t.timeout, |t.history|, run[last]);
  }

  /** A run that cannot go on has returned if and only if there are partitions or a timeout. */
  lemma ReturnsIff<S, I, O>(t: Task<S, I, O>, run: seq<State>)
    requires Proper(t) && IsRun(t, run) && !CanStep(t, run[|run| - 1])
    ensures run[|run| - 1].phase.Returned? <==> |t.history| > 0 || t.timeout
  {
    var last := |run| - 1;
    RunInv(t, run, last);
    hide WellFormed, IsRun, AnswersInv, CanStep;
    if !run[last].phase.Returned? {
      StepPossibleIff(t, run, last);
    }
  }

  /** With no partitions the only thing that can ever happen is the timeout; without one,
      the call does not return. */
  lemma NoPartitionsHang<S, I, O>(t: Task<S, I, O>, step: Step)
    requires Proper(t) && |t.history| == 0
    ensures Enabled(t, Start(), step) <==> step.TimeOut? && t.timeout
  {
  }
}
