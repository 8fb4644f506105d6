/** The whole MapReduce job: the coordinator with its timers, and workers that run the tasks
    they are handed, any number of times and in any order, and report them finished. */
module Job {
  import opened Coordinator
  import opened MapReduce
  import opened Outputs

  datatype Job = Job(files: seq<File>, mapf: MapF, hash: HashF, reducef: ReduceF, n: nat)

  /** The intermediate files by map task and reduce task, and the output files by reduce task. */
  datatype JobState = JobState(
    c: State, handed: set<Task>, ran: set<Task>, files: map<(nat, nat), seq<KeyValue>>, outs: map<nat, seq<Line>>)

  function Begin(job: Job): JobState
  {
    JobState(Start(|job.files|, job.n), {}, {}, map[], map[])
  }

  function Emitted(job: Job, i: nat): seq<KeyValue>
    requires i < |job.files|
  {
    job.mapf(job.files[i].name, job.files[i].content)
  }

  /** What reduce task r reads; a file that is not there reads as empty. */
  function Reads(s: JobState, m: nat, r: nat): (col: seq<seq<KeyValue>>)
    ensures |col| == m && forall i :: 0 <= i < m ==> col[i] == if (i, r) in s.files then s.files[(i, r)] else []
  {
    seq(m, i requires 0 <= i < m => if (i, r) in s.files then s.files[(i, r)] else [])
  }

  // ---------- the steps ----------

  datatype JobStep =
    | Coordinate(step: Step)
    | RunMap(i: nat, out: seq<seq<KeyValue>>)
    | RunReduce(r: nat, lines: seq<Line>)
    | Report(task: Task)

  ghost predicate CanDo(job: Job, s: JobState, step: JobStep)
  {
    && job.n > 0
    && match step
       case Coordinate(st) => !st.Finish? && Enabled(s.c, st)
       case RunMap(i, out) => MapTask(i) in s.handed && i < |job.files| && IsMapOutput(Emitted(job, i), job.hash, job.n, out)
       case RunReduce(r, lines) =>
         ReduceTask(r) in s.handed && IsOutput(Concat(Reads(s, |job.files|, r)), job.reducef, lines)
       case Report(t) => t in s.ran && Exists(s.c, t)
  }

  function Written(files: map<(nat, nat), seq<KeyValue>>, i: nat, out: seq<seq<KeyValue>>)
    : (after: map<(nat, nat), seq<KeyValue>>)
    ensures forall j: nat, r: nat :: (j, r) in after <==> (j, r) in files || (j == i && r < |out|)
    ensures forall j: nat, r: nat :: (j, r) in after ==> after[(j, r)] == if j == i && r < |out| then out[r] else files[(j, r)]
  {
    files + map r: nat | r < |out| :: (i, r) := out[r]
  }

  ghost function Do(job: Job, s: JobState, step: JobStep): JobState
    requires CanDo(job, s, step)
  {
    match step
    case Coordinate(st) =>
      s.(c := Apply(s.c, st), handed := s.handed + if st.Work? && s.c.pc.StartTimer? then {s.c.pc.task} else {})
    case RunMap(i, out) => s.(files := Written(s.files, i, out), ran := s.ran + {MapTask(i)})
    case RunReduce(r, lines) => s.(outs := s.outs[r := lines], ran := s.ran + {ReduceTask(r)})
    case Report(t) => s.(c := DoFinish(s.c, t))
  }

  // ---------- the invariant ----------

  /** Only tasks that ran are finished; reduce tasks are handed out only after all map tasks. */
  ghost predicate TasksInv(job: Job, c: State, handed: set<Task>, ran: set<Task>)
  {
    && Inv(c) && |c.maps| == |job.files| && |c.reduces| == job.n
    && ran <= handed
    && (forall t :: t in handed ==> Exists(c, t) && (t.ReduceTask? ==> AllDone(c.maps)))
    && (forall t :: Exists(c, t) && Get(c, t).status == FINISHED ==> t in ran)
  }

  /** Whatever a map task wrote last, it wrote the pairs of its buckets. */
  ghost predicate FilesInv(job: Job, ran: set<Task>, files: map<(nat, nat), seq<KeyValue>>)
  {
    && job.n > 0
    && (forall i: nat, r: nat :: MapTask(i) in ran && i < |job.files| && r < job.n ==> (i, r) in files)
    && (forall i: nat, r: nat :: (i, r) in files && i < |job.files| && r < job.n ==>
          multiset(files[(i, r)]) == multiset(Bucket(Emitted(job, i), job.hash, job.n, r)))
  }

  ghost predicate OutsInv(job: Job, ran: set<Task>, outs: map<nat, seq<Line>>)
  {
    && job.n > 0
    && (forall r: nat :: ReduceTask(r) in ran ==> r in outs)
    && (forall r: nat :: r in outs && r < job.n ==>
          IsOutput(Bucket(MapAll(job.files, job.mapf), job.hash, job.n, r), job.reducef, outs[r]))
  }

  ghost predicate JobInv(job: Job, s: JobState)
  {
    TasksInv(job, s.c, s.handed, s.ran) && FilesInv(job, s.ran, s.files) && OutsInv(job, s.ran, s.outs)
  }

  lemma BeginInv(job: Job)
    requires job.n > 0
    ensures JobInv(job, Begin(job))
  {
    StartInv(|job.files|, job.n);
  }

  lemma CoordinateTasks(job: Job, s: JobState, st: Step)
    requires TasksInv(job, s.c, s.handed, s.ran) && CanDo(job, s, Coordinate(st))
    ensures var s' := Do(job, s, Coordinate(st));
            TasksInv(job, s'.c, s'.handed, s'.ran)
  {
    StepInv(s.c, st);
    var c := Apply(s.c, st);
    if st.Work? && s.c.pc.StartTimer? {
      HandedOut(s.c);
    }
    hide Inv;
    forall t | Exists(c, t) && Get(c, t).status == FINISHED ensures t in s.ran {
      FinishedBefore(s.c, st, t);
    }
  }

  /** When a reduce task is handed out, all map tasks are finished. */
  lemma HandedOut(c: State)
    requires Inv(c) && c.pc.StartTimer?
    ensures Exists(c, c.pc.task) && (c.pc.task.ReduceTask? ==> AllDone(c.maps))
  {
  }

  /** Only HandleFinish finishes a task. */
  lemma FinishedBefore(c: State, st: Step, t: Task)
    requires Enabled(c, st) && !st.Finish? && Exists(Apply(c, st), t) && Get(Apply(c, st), t).status == FINISHED
    ensures Exists(c, t) && Get(c, t).status == FINISHED
  {
  }

  lemma ReportTasks(job: Job, s: JobState, t: Task)
    requires TasksInv(job, s.c, s.handed, s.ran) && t in s.ran && Exists(s.c, t)
    ensures TasksInv(job, DoFinish(s.c, t), s.handed, s.ran)
  {
    FinishInv(s.c, t);
    hide Inv;
  }

  lemma RunTasks(job: Job, s: JobState, t: Task)
    requires TasksInv(job, s.c, s.handed, s.ran) && t in s.handed
    ensures TasksInv(job, s.c, s.handed, s.ran + {t})
  {
    hide Inv;
  }

  lemma RunMapFiles(job: Job, s: JobState, i: nat, out: seq<seq<KeyValue>>)
    requires FilesInv(job, s.ran, s.files) && i < |job.files| && IsMapOutput(Emitted(job, i), job.hash, job.n, out)
    ensures FilesInv(job, s.ran + {MapTask(i)}, Written(s.files, i, out))
  {
    hide Bucket, Written, Emitted;
    var after := Written(s.files, i, out);
    forall j: nat, r: nat | (j, r) in after && j < |job.files| && r < job.n
      ensures multiset(after[(j, r)]) == multiset(Bucket(Emitted(job, j), job.hash, job.n, r))
    {
    }
  }

  /** All map tasks have run when a reduce task runs, so it reads its whole bucket. */
  lemma ReduceReadsBucket(job: Job, s: JobState, r: nat, lines: seq<Line>)
    requires JobInv(job, s) && CanDo(job, s, RunReduce(r, lines)) && r < job.n
    ensures IsOutput(Bucket(MapAll(job.files, job.mapf), job.hash, job.n, r), job.reducef, lines)
  {
    var m := |job.files|;
    var col := Reads(s, m, r);
    hide Inv, IsOutput, Bucket, OutsInv;
    forall i | 0 <= i < m
      ensures multiset(col[i]) == multiset(Bucket(job.mapf(job.files[i].name, job.files[i].content), job.hash, job.n, r))
    {
      assert Get(s.c, MapTask(i)).status == FINISHED;
      assert (i, r) in s.files;
      assert Emitted(job, i) == job.mapf(job.files[i].name, job.files[i].content);
    }
    ColumnIsBucket(job.files, job.mapf, job.hash, job.n, col, r);
    OutputOfSame(Concat(col), Bucket(MapAll(job.files, job.mapf), job.hash, job.n, r), job.reducef, lines);
  }

  lemma HandedExists(job: Job, s: JobState, t: Task)
    requires TasksInv(job, s.c, s.handed, s.ran) && t in s.handed
    ensures Exists(s.c, t) && (if t.MapTask? then t.index < |job.files| else t.index < job.n)
  {
  }

  lemma RunMapOuts(job: Job, s: JobState, i: nat)
    requires OutsInv(job, s.ran, s.outs)
    ensures OutsInv(job, s.ran + {MapTask(i)}, s.outs)
  {
    hide IsOutput, Bucket;
  }

  lemma RunReduceOuts(job: Job, s: JobState, r: nat, lines: seq<Line>)
    requires OutsInv(job, s.ran, s.outs)
    requires r < job.n && IsOutput(Bucket(MapAll(job.files, job.mapf), job.hash, job.n, r), job.reducef, lines)
    ensures OutsInv(job, s.ran + {ReduceTask(r)}, s.outs[r := lines])
  {
    hide IsOutput, Bucket;
  }

  lemma RunReduceFiles(job: Job, s: JobState, r: nat)
    requires FilesInv(job, s.ran, s.files)
    ensures FilesInv(job, s.ran + {ReduceTask(r)}, s.files)
  {
    hide Bucket;
  }

  lemma JobStepInv(job: Job, s: JobState, step: JobStep)
    requires JobInv(job, s) && CanDo(job, s, step)
    ensures JobInv(job, Do(job, s, step))
  {
    hide TasksInv, FilesInv, OutsInv, IsOutput, Bucket, Inv, IsMapOutput;
    match step
    case Coordinate(st) => CoordinateTasks(job, s, st);
    case RunMap(i, out) =>
      HandedExists(job, s, MapTask(i));
      RunTasks(job, s, MapTask(i));
      RunMapFiles(job, s, i, out);
      RunMapOuts(job, s, i);
    case RunReduce(r, lines) =>
      HandedExists(job, s, ReduceTask(r));
      RunTasks(job, s, ReduceTask(r));
      ReduceReadsBucket(job, s, r, lines);
      RunReduceFiles(job, s, r);
      RunReduceOuts(job, s, r, lines);
    case Report(t) => ReportTasks(job, s, t);
  }

  // ---------- every run of the job ----------

  ghost predicate JobFollows(job: Job, s: JobState, s': JobState)
  {
    exists step :: CanDo(job, s, step) && s' == Do(job, s, step)
  }

  ghost predicate JobStepAt(job: Job, run: seq<JobState>, k: int)
    requires 0 <= k < |run| - 1
  {
    JobFollows(job, run[k], run[k + 1])
  }

  ghost predicate IsJobRun(job: Job, run: seq<JobState>)
  {
    && run != [] && run[0] == Begin(job)
    && forall k :: 0 <= k < |run| - 1 ==> JobStepAt(job, run, k)
  }

  lemma {:induction false} JobRunInv(job: Job, run: seq<JobState>, k: int)
    requires job.n > 0 && IsJobRun(job, run) && 0 <= k < |run|
    ensures JobInv(job, run[k])
  {
    hide JobInv, CanDo, Do;
    if k == 0 {
      BeginInv(job);
    } else {
      JobRunInv(job, run, k - 1);
      assert JobStepAt(job, run, k - 1);
      var step :| CanDo(job, run[k - 1], step) && run[k] == Do(job, run[k - 1], step);
      JobStepInv(job, run[k - 1], step);
    }
  }

  /** The output files, in the order of the reduce tasks. */
  ghost function OutputFiles(job: Job, s: JobState): (outs: seq<seq<Line>>)
    ensures |outs| == job.n && forall r :: 0 <= r < job.n ==> outs[r] == if r in s.outs then s.outs[r] else []
  {
    seq(job.n, r requires 0 <= r < job.n => if r in s.outs then s.outs[r] else [])
  }

  lemma AllFinished(job: Job, s: JobState)
    requires JobInv(job, s) && s.c.done == Answered(true)
    ensures AllReduced(MapAll(job.files, job.mapf), job.hash, job.n, job.reducef, OutputFiles(job, s))
  {
    hide IsOutput, Bucket, CellsInv, OrderInv, PcInv;
    var outs := OutputFiles(job, s);
    forall r | 0 <= r < job.n
      ensures IsOutput(Bucket(MapAll(job.files, job.mapf), job.hash, job.n, r), job.reducef, outs[r])
    {
      assert Get(s.c, ReduceTask(r)).status == FINISHED;
    }
  }

  /** Whenever Done answers true, whatever the workers, timers and crashes did before, the
      output files together hold exactly the lines of the sequential program. */
  lemma JobIsRight(job: Job, run: seq<JobState>, k: int, lines: seq<Line>)
    requires job.n > 0 && Insensitive(job.reducef) && IsJobRun(job, run) && 0 <= k < |run|
    requires run[k].c.done == Answered(true)
    requires IsOutput(MapAll(job.files, job.mapf), job.reducef, lines)
    ensures multiset(Flatten(OutputFiles(job, run[k]))) == multiset(lines)
    ensures forall r, i :: 0 <= r < job.n && 0 <= i < |OutputFiles(job, run[k])[r]| ==>
      job.hash(OutputFiles(job, run[k])[r][i].key) % job.n == r
  {
    hide JobInv, IsOutput, Insensitive, MapAll, IsJobRun, AllReduced;
    JobRunInv(job, run, k);
    AllFinished(job, run[k]);
    JobEqualsSequential(MapAll(job.files, job.mapf), job.hash, job.n, job.reducef, OutputFiles(job, run[k]), lines);
  }
}
