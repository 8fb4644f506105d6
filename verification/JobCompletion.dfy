/** Jobs can be completed: whatever the job, if every worker does what it was handed and reports it,
    Done comes to answer true. So what is said of finished jobs is said of something. */
module JobCompletion {
  import opened Coordinator
  import opened MapReduce
  import opened Outputs
  import opened Job
  import Strings

  // ---------- every task can be run ----------

  /** A largest string of a set. */
  lemma {:induction false} Largest(keys: set<string>) returns (k: string)
    requires keys != {}
    ensures k in keys && forall x :: x in keys && x != k ==> Strings.Less(x, k)
    decreases |keys|
  {
    var x :| x in keys;
    var rest := keys - {x};
    assert forall y :: y in keys && y != x ==> y in rest;
    if rest == {} {
      k := x;
    } else {
      k := Largest(rest);
      if Strings.Less(k, x) {
        forall y | y in keys && y != x ensures Strings.Less(y, x) {
          if y != k { LessOn(y, k, x); }
        }
        k := x;
      } else if !Strings.Less(x, k) {
        Strings.Total(x, k);
      }
    }
  }

  lemma LessOn(a: string, b: string, c: string)
    requires Strings.Less(a, b) && Strings.Less(b, c)
    ensures Strings.Less(a, c)
  {
    Strings.Asymmetric(a, b);
    Strings.Asymmetric(b, c);
    if !Strings.Less(a, c) {
      Strings.Transitive(b, c, a);
      assert false;
    }
  }

  /** The keys of a set in increasing order. */
  lemma {:induction false} InOrder(keys: set<string>) returns (ks: seq<string>)
    ensures forall k :: k in ks <==> k in keys
    ensures forall i, j :: 0 <= i < j < |ks| ==> Strings.Less(ks[i], ks[j])
    decreases |keys|
  {
    if keys == {} {
      ks := [];
    } else {
      var k := Largest(keys);
      var rest := InOrder(keys - {k});
      ks := rest + [k];
    }
  }

  /** Every list of pairs has an output. */
  lemma OutputExists(kvs: seq<KeyValue>, reducef: ReduceF) returns (lines: seq<Line>)
    ensures IsOutput(kvs, reducef, lines)
  {
    var keys := set i | 0 <= i < |kvs| :: kvs[i].key;
    var ks := InOrder(keys);
    lines := seq(|ks|, i requires 0 <= i < |ks| => Line(ks[i], reducef(ks[i], Values(kvs, ks[i]))));
    hide Values, Strings.Less;
    forall i | 0 <= i < |lines| ensures HasKey(kvs, lines[i].key) && Reduces(kvs, reducef, lines[i]) {
      assert ks[i] in keys;
      ReducesAll(kvs, reducef, lines[i], Values(kvs, ks[i]));
    }
    forall k | HasKey(kvs, k) ensures exists i :: 0 <= i < |lines| && lines[i].key == k {
      assert k in ks;
      var i :| 0 <= i < |ks| && ks[i] == k;
      assert lines[i].key == k;
    }
  }

  lemma MapOutputExists(kvs: seq<KeyValue>, hash: HashF, n: nat) returns (out: seq<seq<KeyValue>>)
    requires n > 0
    ensures IsMapOutput(kvs, hash, n, out)
  {
    out := seq(n, r requires 0 <= r < n => Bucket(kvs, hash, n, r));
  }

  // ---------- reachable states of a job ----------

  ghost predicate JobReachable(job: Job, s: JobState)
  {
    exists run :: IsJobRun(job, run) && run[|run| - 1] == s
  }

  lemma ReachBegin(job: Job)
    ensures JobReachable(job, Begin(job))
  {
    assert IsJobRun(job, [Begin(job)]);
  }

  lemma ReachNext(job: Job, s: JobState, step: JobStep)
    requires JobReachable(job, s) && CanDo(job, s, step)
    ensures JobReachable(job, Do(job, s, step))
  {
    hide CanDo, Do;
    var run :| IsJobRun(job, run) && run[|run| - 1] == s;
    var more := run + [Do(job, s, step)];
    forall k | 0 <= k < |more| - 1 ensures JobStepAt(job, more, k) {
      if k < |run| - 1 {
        assert JobStepAt(job, run, k);
        assert more[k] == run[k] && more[k + 1] == run[k + 1];
      } else {
        assert more[k] == s && more[k + 1] == Do(job, s, step);
        assert JobFollows(job, more[k], more[k + 1]);
      }
    }
    assert IsJobRun(job, more) && more[|more| - 1] == Do(job, s, step);
  }

  lemma ReachInv(job: Job, s: JobState)
    requires job.n > 0 && JobReachable(job, s)
    ensures JobInv(job, s)
  {
    hide JobInv, JobFollows;
    var run :| IsJobRun(job, run) && run[|run| - 1] == s;
    JobRunInv(job, run, |run| - 1);
  }

  // ---------- one task after the other ----------

  /** A step of the coordinator that hands nothing out. */
  lemma ReachCoordinate(job: Job, s: JobState, st: Step)
    requires job.n > 0 && JobReachable(job, s) && Enabled(s.c, st) && !st.Finish? && !(st.Work? && s.c.pc.StartTimer?)
    ensures JobReachable(job, s.(c := Apply(s.c, st)))
  {
    hide JobReachable, Enabled, Apply;
    ReachNext(job, s, Coordinate(st));
    assert Do(job, s, Coordinate(st)) == s.(c := Apply(s.c, st));
  }

  /** A handler that is heading for t comes to dispatch it. */
  lemma {:induction false} RunHandler(job: Job, s: JobState, t: Task) returns (s': JobState)
    requires job.n > 0 && JobReachable(job, s) && Heading(s.c, t)
    ensures Exists(s.c, t) && JobReachable(job, s') && s' == s.(c := Dispatching(s.c, t))
    decreases Rank(s.c.pc), Left(s.c)
  {
    hide JobReachable;
    HeadExists(s.c, t);
    if s.c.pc.WriteStatus? {
      ReachCoordinate(job, s, Work);
      s' := s.(c := DoWork(s.c));
    } else {
      HeadOne(s.c, t);
      HeadSame(s.c, t);
      ReachCoordinate(job, s, Work);
      hide Heading, DoWork;
      s' := RunHandler(job, s.(c := DoWork(s.c)), t);
      assert Dispatching(DoWork(s.c), t) == Dispatching(s.c, t);
    }
  }

  /** Task t is running, with one timer more than before; all else is as it was. */
  function Handed(c: State, t: Task): State
    requires Exists(c, t)
  {
    var cell := Get(c, t);
    Put(c, t, cell.(status := RUNNING, dispatched := cell.dispatched + 1, timers := cell.timers + 1)).(pc := Idle)
  }

  /** A request is handed the task that is picked. */
  lemma HandOut(job: Job, s: JobState, t: Task) returns (s': JobState)
    requires job.n > 0 && JobReachable(job, s) && s.c.pc.Idle?
    requires Pick(Statuses(s.c.maps), Statuses(s.c.reduces)) == Take(t)
    ensures Exists(s.c, t) && Get(s.c, t).status == NOTRUN
    ensures JobReachable(job, s') && t in s'.handed && s'.c == Handed(s.c, t)
  {
    hide JobReachable;
    ReachCoordinate(job, s, Acquire);
    var a := s.(c := s.c.(pc := ScanMaps(0)));
    assert Heading(a.c, t);
    var b := RunHandler(job, a, t);
    hide Heading, Pick;
    ReachNext(job, b, Coordinate(Work));
    s' := Do(job, b, Coordinate(Work));
  }

  /** Task t, running, with its timer started and handed to a worker, which runs it. */
  lemma RunTask(job: Job, s: JobState, t: Task) returns (s': JobState)
    requires job.n > 0 && JobReachable(job, s) && t in s.handed && Exists(s.c, t) && JobInv(job, s)
    ensures JobReachable(job, s') && s'.c == s.c && t in s'.ran
  {
    hide JobReachable, IsOutput, IsMapOutput;
    HandedExists(job, s, t);
    match t
    case MapTask(i) =>
      var out := MapOutputExists(Emitted(job, i), job.hash, job.n);
      ReachNext(job, s, RunMap(i, out));
      s' := Do(job, s, RunMap(i, out));
    case ReduceTask(r) =>
      var lines := OutputExists(Concat(Reads(s, |job.files|, r)), job.reducef);
      ReachNext(job, s, RunReduce(r, lines));
      s' := Do(job, s, RunReduce(r, lines));
  }

  /** No task is running. */
  predicate Quiet(c: State)
  {
    && c.pc.Idle? && c.done == NotCalled
    && (forall i :: 0 <= i < |c.maps| ==> c.maps[i].status != RUNNING)
    && (forall j :: 0 <= j < |c.reduces| ==> c.reduces[j].status != RUNNING)
  }

  /** The same statuses, but that t is finished. */
  predicate OneMore(c: State, c': State, t: Task)
  {
    && |c'.maps| == |c.maps| && |c'.reduces| == |c.reduces| && Exists(c', t) && Get(c', t).status == FINISHED
    && (forall i :: 0 <= i < |c.maps| && t != MapTask(i) ==> c'.maps[i].status == c.maps[i].status)
    && (forall j :: 0 <= j < |c.reduces| && t != ReduceTask(j) ==> c'.reduces[j].status == c.reduces[j].status)
  }

  /** A worker reports a task it ran. */
  lemma ReportOne(job: Job, s: JobState, t: Task) returns (s': JobState)
    requires job.n > 0 && JobReachable(job, s) && t in s.ran && Exists(s.c, t)
    ensures JobReachable(job, s') && Enabled(s.c, Finish(t)) && s'.c == Apply(s.c, Finish(t))
  {
    hide JobReachable;
    ReachNext(job, s, Report(t));
    s' := Do(job, s, Report(t));
  }

  lemma OneMoreFinished(c: State, t: Task)
    requires Quiet(c) && Exists(c, t) && Enabled(Handed(c, t), Finish(t))
    ensures var c' := Apply(Handed(c, t), Finish(t)); Quiet(c') && OneMore(c, c', t)
  {
    var h := Handed(c, t);
    FinishFinishes(h, t);
    var c' := Apply(h, Finish(t));
    hide Apply, Reported;
    forall i: nat | i < |c.maps| && t != MapTask(i) ensures c'.maps[i].status == c.maps[i].status {
      assert Get(c', MapTask(i)) == Get(h, MapTask(i));
    }
    forall j: nat | j < |c.reduces| && t != ReduceTask(j) ensures c'.reduces[j].status == c.reduces[j].status {
      assert Get(c', ReduceTask(j)) == Get(h, ReduceTask(j));
    }
  }

  /** A request is handed t; its worker runs and reports it. */
  lemma CompleteOne(job: Job, s: JobState, t: Task) returns (s': JobState)
    requires job.n > 0 && JobReachable(job, s) && Quiet(s.c)
    requires Pick(Statuses(s.c.maps), Statuses(s.c.reduces)) == Take(t)
    ensures JobReachable(job, s') && Quiet(s'.c) && OneMore(s.c, s'.c, t)
    ensures Exists(s.c, t) && Get(s.c, t).status != FINISHED
  {
    hide JobReachable, Pick, JobInv, Apply, OneMore;
    var a := HandOut(job, s, t);
    ReachInv(job, a);
    var b := RunTask(job, a, t);
    s' := ReportOne(job, b, t);
    OneMoreFinished(s.c, t);
  }

  // ---------- all tasks ----------

  /** The number of tasks that are not finished. */
  function Unfinished(cells: seq<Cell>): nat
  {
    if cells == [] then 0 else Unfinished(cells[..|cells| - 1]) + if cells[|cells| - 1].status == FINISHED then 0 else 1
  }

  lemma {:induction false} SameUnfinished(was: seq<Cell>, now: seq<Cell>)
    requires |now| == |was| && forall i :: 0 <= i < |was| ==> now[i].status == was[i].status
    ensures Unfinished(now) == Unfinished(was)
  {
    if was != [] {
      SameUnfinished(was[..|was| - 1], now[..|was| - 1]);
    }
  }

  lemma {:induction false} OneLess(was: seq<Cell>, now: seq<Cell>, k: int)
    requires |now| == |was| && 0 <= k < |was| && was[k].status != FINISHED && now[k].status == FINISHED
    requires forall i :: 0 <= i < |was| && i != k ==> now[i].status == was[i].status
    ensures Unfinished(now) < Unfinished(was)
  {
    var last := |was| - 1;
    if k == last {
      SameUnfinished(was[..last], now[..last]);
    } else {
      OneLess(was[..last], now[..last], k);
    }
  }

  lemma OneMoreIsLess(c: State, c': State, t: Task)
    requires OneMore(c, c', t) && Exists(c, t) && Get(c, t).status != FINISHED
    ensures Unfinished(c'.maps) + Unfinished(c'.reduces) < Unfinished(c.maps) + Unfinished(c.reduces)
  {
    if t.MapTask? {
      OneLess(c.maps, c'.maps, t.index);
      SameUnfinished(c.reduces, c'.reduces);
    } else {
      OneLess(c.reduces, c'.reduces, t.index);
      SameUnfinished(c.maps, c'.maps);
    }
  }

  /** From a quiet state all reduce tasks come to be finished. */
  lemma {:induction false} CompleteAll(job: Job, s: JobState) returns (s': JobState)
    requires job.n > 0 && JobReachable(job, s) && Quiet(s.c)
    ensures JobReachable(job, s') && Quiet(s'.c) && AllDone(s'.c.reduces)
    decreases Unfinished(s.c.maps) + Unfinished(s.c.reduces)
  {
    if AllDone(s.c.reduces) {
      s' := s;
    } else {
      ReachInv(job, s);
      NoneRunning(s.c);
      hide JobReachable, JobInv, Pick, OneMore, Quiet;
      var t := Pick(Statuses(s.c.maps), Statuses(s.c.reduces)).task;
      var next := CompleteOne(job, s, t);
      OneMoreIsLess(s.c, next.c, t);
      s' := CompleteAll(job, next);
    }
  }

  /** With all reduce tasks finished, Done comes to answer true. */
  lemma {:induction false} DoneAnswers(job: Job, s: JobState) returns (s': JobState)
    requires job.n > 0 && JobReachable(job, s) && AllDone(s.c.reduces) && s.c.done.Scanning? && s.c.done.j <= |s.c.reduces|
    ensures JobReachable(job, s') && s'.c.done == Answered(true)
    decreases |s.c.reduces| - s.c.done.j
  {
    hide JobReachable;
    ReachCoordinate(job, s, DoneStep);
    var next := s.(c := DoDone(s.c));
    if s.c.done.j < |s.c.reduces| {
      s' := DoneAnswers(job, next);
    } else {
      s' := next;
    }
  }

  /** Every job can be completed: some run reaches a state in which Done has answered true. */
  lemma JobCanComplete(job: Job) returns (run: seq<JobState>)
    requires job.n > 0
    ensures IsJobRun(job, run) && run[|run| - 1].c.done == Answered(true)
  {
    ReachBegin(job);
    var a := CompleteAll(job, Begin(job));
    ReachCoordinate(job, a, DoneStep);
    var b := DoneAnswers(job, a.(c := DoDone(a.c)));
    run :| IsJobRun(job, run) && run[|run| - 1] == b;
  }

  // ---------- the coordinator alone ----------

  ghost predicate Reachable(nMap: nat, nReduce: nat, s: State)
  {
    exists run :: IsRun(nMap, nReduce, run) && run[|run| - 1] == s
  }

  lemma ReachStep(nMap: nat, nReduce: nat, s: State, step: Step)
    requires Reachable(nMap, nReduce, s) && Enabled(s, step)
    ensures Reachable(nMap, nReduce, Apply(s, step))
  {
    hide Enabled, Apply;
    var run :| IsRun(nMap, nReduce, run) && run[|run| - 1] == s;
    var more := run + [Apply(s, step)];
    forall k | 0 <= k < |more| - 1 ensures StepAt(more, k) {
      if k < |run| - 1 {
        assert StepAt(run, k);
        assert more[k] == run[k] && more[k + 1] == run[k + 1];
      } else {
        assert more[k] == s && more[k + 1] == Apply(s, step);
        assert Follows(more[k], more[k + 1]);
      }
    }
    assert IsRun(nMap, nReduce, more) && more[|more| - 1] == Apply(s, step);
  }

  /** What the coordinator does in a job it can do. */
  lemma {:induction false} JobIsCoordinated(job: Job, run: seq<JobState>, k: int)
    requires IsJobRun(job, run) && 0 <= k < |run|
    ensures Reachable(|job.files|, job.n, run[k].c)
  {
    if k == 0 {
      assert IsRun(|job.files|, job.n, [run[0].c]);
    } else {
      hide Reachable;
      JobIsCoordinated(job, run, k - 1);
      assert JobStepAt(job, run, k - 1);
      var s := run[k - 1];
      var step :| CanDo(job, s, step) && run[k] == Do(job, s, step);
      if step.Coordinate? {
        ReachStep(|job.files|, job.n, s.c, step.step);
      } else if step.Report? {
        ReachStep(|job.files|, job.n, s.c, Finish(step.task));
      }
    }
  }

  /** For any numbers of tasks, with a reduce task, some run ends with Done answering true. */
  lemma DoneCanBeTrue(nMap: nat, nReduce: nat) returns (run: seq<State>)
    requires nReduce > 0
    ensures IsRun(nMap, nReduce, run) && run[|run| - 1].done == Answered(true)
  {
    var job := Job(seq(nMap, _ => File("", "")), (name, content) => [], k => 0, (k, vs) => "", nReduce);
    var jobRun := JobCanComplete(job);
    JobIsCoordinated(job, jobRun, |jobRun| - 1);
    run :| IsRun(nMap, nReduce, run) && run[|run| - 1] == jobRun[|jobRun| - 1].c;
  }
}
