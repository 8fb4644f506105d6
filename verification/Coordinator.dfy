/** The MapReduce coordinator under every interleaving. HandleWorker holds the mutex and reads
    or writes one status at a time; timers and HandleFinish compare-and-swap a status without
    the mutex; Done reads the statuses without it. Each such access is one step. */
module Coordinator {

  const NOTRUN := 0
  const RUNNING := 1
  const FINISHED := 2

  datatype Task = MapTask(index: nat) | ReduceTask(index: nat)

  /** A task: its status, its pending timers, how often it was dispatched and how often a
      timer put it back. */
  datatype Cell = Cell(status: int, timers: nat, dispatched: nat, resets: nat)

  /** Where HandleWorker is. `found` is what the first call of getReduceTask returned, or -1
      during that call. Crashed is the use of a nil task. */
  datatype Pc =
    | Idle
    | ScanMaps(i: nat)
    | WriteStatus(task: Task)
    | StartTimer(task: Task)
    | CheckMaps(found: int, i: nat)
    | ScanReduces(found: int, j: nat)
    | Crashed

  datatype DonePc = NotCalled | Scanning(j: nat) | Answered(answer: bool)

  datatype State = State(maps: seq<Cell>, reduces: seq<Cell>, pc: Pc, done: DonePc)

  function Start(nMap: nat, nReduce: nat): State
  {
    State(seq(nMap, _ => Cell(NOTRUN, 0, 0, 0)), seq(nReduce, _ => Cell(NOTRUN, 0, 0, 0)), Idle, NotCalled)
  }

  predicate Exists(s: State, t: Task)
  {
    if t.MapTask? then t.index < |s.maps| else t.index < |s.reduces|
  }

  function Get(s: State, t: Task): Cell
    requires Exists(s, t)
  {
    if t.MapTask? then s.maps[t.index] else s.reduces[t.index]
  }

  function Put(s: State, t: Task, c: Cell): State
    requires Exists(s, t)
  {
    if t.MapTask? then s.(maps := s.maps[t.index := c]) else s.(reduces := s.reduces[t.index := c])
  }

  // ---------- the steps ----------

  datatype Step = Acquire | Work | Fire(task: Task) | Finish(task: Task) | DoneStep

  predicate Enabled(s: State, step: Step)
  {
    match step
    case Acquire => s.pc.Idle?
    case Work => !s.pc.Idle? && !s.pc.Crashed? && PcInRange(s)
    case Fire(t) => Exists(s, t) && Get(s, t).timers > 0
    case Finish(t) => Exists(s, t)
    case DoneStep => true
  }

  predicate PcInRange(s: State)
  {
    match s.pc
    case WriteStatus(t) => Exists(s, t)
    case StartTimer(t) => Exists(s, t)
    case _ => true
  }

  /** The next access of HandleWorker. */
  function DoWork(s: State): State
    requires Enabled(s, Work)
  {
    match s.pc
    case ScanMaps(i) =>
      if i >= |s.maps| then s.(pc := CheckMaps(-1, 0))
      else if s.maps[i].status == NOTRUN then s.(pc := WriteStatus(MapTask(i)))
      else s.(pc := ScanMaps(i + 1))
    case WriteStatus(t) =>
      var c := Get(s, t);
      Put(s, t, c.(status := RUNNING, dispatched := c.dispatched + 1)).(pc := StartTimer(t))
    case StartTimer(t) =>
      var c := Get(s, t);
      Put(s, t, c.(timers := c.timers + 1)).(pc := Idle)
    case CheckMaps(found, i) =>
      if i >= |s.maps| then s.(pc := ScanReduces(found, 0))
      else if s.maps[i].status != FINISHED then s.(pc := if found < 0 then Idle else Crashed)
      else s.(pc := CheckMaps(found, i + 1))
    case ScanReduces(found, j) =>
      if j >= |s.reduces| then s.(pc := if found < 0 then Idle else Crashed)
      else if s.reduces[j].status == NOTRUN then s.(pc := if found < 0 then CheckMaps(j, 0) else WriteStatus(ReduceTask(j)))
      else s.(pc := ScanReduces(found, j + 1))
  }

  /** A timer ends: compare-and-swap from running to idle. */
  function DoFire(s: State, t: Task): State
    requires Enabled(s, Fire(t))
  {
    var c := Get(s, t);
    Put(s, t, if c.status == RUNNING then c.(status := NOTRUN, timers := c.timers - 1, resets := c.resets + 1)
              else c.(timers := c.timers - 1))
  }

  /** HandleFinish: compare-and-swap from running to finished. */
  function DoFinish(s: State, t: Task): State
    requires Exists(s, t)
  {
    var c := Get(s, t);
    Put(s, t, if c.status == RUNNING then c.(status := FINISHED) else c)
  }

  function DoDone(s: State): State
  {
    match s.done
    case Scanning(j) =>
      if j >= |s.reduces| then s.(done := Answered(true))
      else if s.reduces[j].status != FINISHED then s.(done := Answered(false))
      else s.(done := Scanning(j + 1))
    case _ => s.(done := Scanning(0))
  }

  function Apply(s: State, step: Step): State
    requires Enabled(s, step)
  {
    match step
    case Acquire => s.(pc := ScanMaps(0))
    case Work => DoWork(s)
    case Fire(t) => DoFire(s, t)
    case Finish(t) => DoFinish(s, t)
    case DoneStep => DoDone(s)
  }

  // ---------- the invariant ----------

  /** Dispatches less resets is one exactly while the task is not idle, and a running task has
      exactly one pending timer, except while its dispatch has yet to start it. */
  predicate CellOk(c: Cell, starting: bool)
  {
    && c.status in {NOTRUN, RUNNING, FINISHED}
    && c.dispatched == c.resets + (if c.status != NOTRUN then 1 else 0)
    && (c.status == NOTRUN ==> c.timers == 0 && !starting)
    && (c.status == RUNNING ==> c.timers == if starting then 0 else 1)
    && (c.status == FINISHED ==> c.timers <= if starting then 0 else 1)
  }

  predicate AllDone(cells: seq<Cell>)
  {
    forall i :: 0 <= i < |cells| ==> cells[i].status == FINISHED
  }

  predicate CellsInv(maps: seq<Cell>, reduces: seq<Cell>, pc: Pc)
  {
    && (forall i :: 0 <= i < |maps| ==> CellOk(maps[i], pc == StartTimer(MapTask(i))))
    && (forall j :: 0 <= j < |reduces| ==> CellOk(reduces[j], pc == StartTimer(ReduceTask(j))))
  }

  /** No reduce task leaves idle before all map tasks are finished. */
  predicate OrderInv(maps: seq<Cell>, reduces: seq<Cell>)
  {
    forall j :: 0 <= j < |reduces| && reduces[j].status != NOTRUN ==> AllDone(maps)
  }

  predicate HasStatus(maps: seq<Cell>, reduces: seq<Cell>, t: Task, idle: bool)
  {
    if t.MapTask? then t.index < |maps| && (maps[t.index].status == NOTRUN) == idle
    else t.index < |reduces| && (reduces[t.index].status == NOTRUN) == idle
  }

  /** What HandleWorker has read is still true where it relies on it. */
  predicate PcInv(maps: seq<Cell>, reduces: seq<Cell>, pc: Pc)
  {
    match pc
    case Idle => true
    case ScanMaps(i) => i <= |maps|
    case WriteStatus(t) => HasStatus(maps, reduces, t, true) && (t.ReduceTask? ==> AllDone(maps))
    case StartTimer(t) => HasStatus(maps, reduces, t, false)
    case CheckMaps(found, i) =>
      && i <= |maps| && AllDone(maps[..i])
      && -1 <= found < |reduces| && (found >= 0 ==> AllDone(maps) && reduces[found].status == NOTRUN)
    case ScanReduces(found, j) =>
      && AllDone(maps) && j <= |reduces|
      && -1 <= found < |reduces| && (found >= 0 ==> j <= found && reduces[found].status == NOTRUN)
    case Crashed => false
  }

  predicate DoneInv(reduces: seq<Cell>, done: DonePc)
  {
    match done
    case NotCalled => true
    case Scanning(j) => j <= |reduces| && AllDone(reduces[..j])
    case Answered(answer) => answer ==> AllDone(reduces)
  }

  predicate Inv(s: State)
  {
    && CellsInv(s.maps, s.reduces, s.pc)
    && OrderInv(s.maps, s.reduces)
    && PcInv(s.maps, s.reduces, s.pc)
    && DoneInv(s.reduces, s.done)
  }

  lemma StartInv(nMap: nat, nReduce: nat)
    ensures Inv(Start(nMap, nReduce))
  {
  }

  /** What a change of statuses may be: finished stays, idle stays unless HandleWorker writes. */
  predicate Grows(s: State, s': State)
  {
    && |s'.maps| == |s.maps| && |s'.reduces| == |s.reduces|
    && (forall i :: 0 <= i < |s.maps| && s.maps[i].status == FINISHED ==> s'.maps[i].status == FINISHED)
    && (forall j :: 0 <= j < |s.reduces| && s.reduces[j].status == FINISHED ==> s'.reduces[j].status == FINISHED)
  }

  lemma WriteInv(s: State)
    requires Inv(s) && s.pc.WriteStatus? && Enabled(s, Work)
    ensures Inv(DoWork(s)) && Grows(s, DoWork(s))
  {
  }

  lemma TimerInv(s: State)
    requires Inv(s) && s.pc.StartTimer? && Enabled(s, Work)
    ensures Inv(DoWork(s)) && Grows(s, DoWork(s))
  {
  }

  /** Reading changes no cell; what was read stays true where it is relied on. */
  lemma ScanInv(s: State)
    requires Inv(s) && Enabled(s, Work) && !s.pc.WriteStatus? && !s.pc.StartTimer?
    ensures Inv(DoWork(s)) && Grows(s, DoWork(s))
  {
    var s' := DoWork(s);
    assert s'.maps == s.maps && s'.reduces == s.reduces && s'.done == s.done && !s'.pc.StartTimer?;
    assert CellsInv(s'.maps, s'.reduces, s'.pc);
    hide CellsInv, OrderInv, DoneInv;
    if s.pc.CheckMaps? && s.pc.i < |s.maps| {
      assert s.maps[..s.pc.i + 1] == s.maps[..s.pc.i] + [s.maps[s.pc.i]];
    }
    assert s.maps[..|s.maps|] == s.maps;
  }

  lemma WorkInv(s: State)
    requires Inv(s) && Enabled(s, Work)
    ensures Inv(DoWork(s)) && Grows(s, DoWork(s))
  {
    if s.pc.WriteStatus? {
      WriteInv(s);
    } else if s.pc.StartTimer? {
      TimerInv(s);
    } else {
      ScanInv(s);
    }
  }

  /** How a compare-and-swap without the mutex may change a task: finished stays finished and
      idle stays idle. */
  predicate CasMove(was: Cell, now: Cell, starting: bool)
  {
    && CellOk(now, starting)
    && (was.status == FINISHED ==> now.status == FINISHED)
    && (was.status == NOTRUN ==> now.status == NOTRUN)
    && (starting ==> now.status != NOTRUN)
  }

  lemma CellsPut(s: State, t: Task, c: Cell)
    requires CellsInv(s.maps, s.reduces, s.pc) && Exists(s, t) && CellOk(c, s.pc == StartTimer(t))
    ensures var s' := Put(s, t, c); CellsInv(s'.maps, s'.reduces, s'.pc)
  {
    hide CellOk;
  }

  lemma OrderPut(s: State, t: Task, c: Cell)
    requires OrderInv(s.maps, s.reduces) && Exists(s, t) && CasMove(Get(s, t), c, s.pc == StartTimer(t))
    ensures var s' := Put(s, t, c); OrderInv(s'.maps, s'.reduces) && Grows(s, s')
  {
    hide CellOk;
  }

  lemma PcPut(s: State, t: Task, c: Cell)
    requires PcInv(s.maps, s.reduces, s.pc) && Exists(s, t) && CasMove(Get(s, t), c, s.pc == StartTimer(t))
    ensures var s' := Put(s, t, c); PcInv(s'.maps, s'.reduces, s'.pc)
  {
    hide CellOk;
  }

  lemma CasInv(s: State, t: Task, c: Cell)
    requires Inv(s) && Exists(s, t) && CasMove(Get(s, t), c, s.pc == StartTimer(t))
    ensures Inv(Put(s, t, c)) && Grows(s, Put(s, t, c))
  {
    CellsPut(s, t, c);
    OrderPut(s, t, c);
    PcPut(s, t, c);
    hide CellOk, CellsInv, OrderInv, PcInv, Grows;
  }

  lemma CellFacts(s: State, t: Task)
    requires CellsInv(s.maps, s.reduces, s.pc) && Exists(s, t)
    ensures CellOk(Get(s, t), s.pc == StartTimer(t))
  {
  }

  lemma FireInv(s: State, t: Task)
    requires Inv(s) && Enabled(s, Fire(t))
    ensures Inv(DoFire(s, t)) && Grows(s, DoFire(s, t))
  {
    CellFacts(s, t);
    hide CellsInv, OrderInv, PcInv, DoneInv, Inv, Grows;
    var c := Get(s, t);
    CasInv(s, t, if c.status == RUNNING then c.(status := NOTRUN, timers := c.timers - 1, resets := c.resets + 1)
                 else c.(timers := c.timers - 1));
  }

  lemma FinishInv(s: State, t: Task)
    requires Inv(s) && Exists(s, t)
    ensures Inv(DoFinish(s, t)) && Grows(s, DoFinish(s, t))
  {
    CellFacts(s, t);
    hide CellsInv, OrderInv, PcInv, DoneInv, Inv, Grows;
    var c := Get(s, t);
    CasInv(s, t, if c.status == RUNNING then c.(status := FINISHED) else c);
  }

  lemma DoneStepInv(s: State)
    requires Inv(s)
    ensures Inv(DoDone(s)) && Grows(s, DoDone(s))
  {
    hide CellsInv, OrderInv, PcInv;
    if s.done.Scanning? && s.done.j < |s.reduces| {
      assert s.reduces[..s.done.j + 1] == s.reduces[..s.done.j] + [s.reduces[s.done.j]];
    }
    assert s.reduces[..|s.reduces|] == s.reduces;
  }

  /** Every step keeps the invariant, and no finished task is ever taken back. */
  lemma StepInv(s: State, step: Step)
    requires Inv(s) && Enabled(s, step)
    ensures Inv(Apply(s, step)) && Grows(s, Apply(s, step))
  {
    match step
    case Acquire => hide OrderInv, DoneInv;
    case Work => hide Inv, Grows; WorkInv(s);
    case Fire(t) => hide Inv, Grows; FireInv(s, t);
    case Finish(t) => hide Inv, Grows; FinishInv(s, t);
    case DoneStep => hide Inv, Grows; DoneStepInv(s);
  }

  // ---------- what a report does ----------

  /** The statuses after a report of map or reduce task number `index`: that task is finished if it
      was running, and nothing else has changed. */
  predicate Reported(t: Task, maps: seq<int>, reduces: seq<int>, maps': seq<int>, reduces': seq<int>)
  {
    var (was, now) := if t.MapTask? then (maps, maps') else (reduces, reduces');
    && t.index < |was| == |now|
    && now[t.index] == (if was[t.index] == RUNNING then FINISHED else was[t.index])
    && (forall i :: 0 <= i < |was| && i != t.index ==> now[i] == was[i])
    && (if t.MapTask? then reduces' == reduces else maps' == maps)
  }

  /** A report finishes a running task, leaves any other status of it, and changes no other task
      and neither handler. */
  lemma FinishFinishes(s: State, t: Task)
    requires Enabled(s, Finish(t))
    ensures var s' := Apply(s, Finish(t));
            && Exists(s', t) && (forall u :: Exists(s, u) <==> Exists(s', u))
            && (Get(s, t).status == RUNNING ==> Get(s', t).status == FINISHED)
            && (Get(s, t).status != RUNNING ==> Get(s', t).status == Get(s, t).status)
            && Get(s', t).timers == Get(s, t).timers
            && (forall u :: Exists(s, u) && u != t ==> Get(s', u) == Get(s, u))
            && s'.pc == s.pc && s'.done == s.done
            && Reported(t, Statuses(s.maps), Statuses(s.reduces), Statuses(s'.maps), Statuses(s'.reduces))
  {
    var s' := Apply(s, Finish(t));
    if t.MapTask? {
      assert Statuses(s'.reduces) == Statuses(s.reduces);
    } else {
      assert Statuses(s'.maps) == Statuses(s.maps);
    }
  }

  /** A scan of Done that answers false has just read a reduce task that was not finished. */
  lemma DoneFalse(s: State)
    requires Apply(s, DoneStep).done == Answered(false)
    ensures !AllDone(s.reduces)
  {
  }

  // ---------- runs ----------

  ghost predicate Follows(s: State, s': State)
  {
    exists step :: Enabled(s, step) && s' == Apply(s, step)
  }

  ghost predicate IsRun(nMap: nat, nReduce: nat, run: seq<State>)
  {
    && run != [] && run[0] == Start(nMap, nReduce)
    && forall k :: 0 <= k < |run| - 1 ==> StepAt(run, k)
  }

  ghost predicate StepAt(run: seq<State>, k: int)
    requires 0 <= k < |run| - 1
  {
    Follows(run[k], run[k + 1])
  }

  lemma {:induction false} RunInv(nMap: nat, nReduce: nat, run: seq<State>, k: int)
    requires IsRun(nMap, nReduce, run) && 0 <= k < |run|
    ensures Inv(run[k]) && |run[k].maps| == nMap && |run[k].reduces| == nReduce
  {
    hide Inv, Apply, Enabled;
    if k == 0 {
      StartInv(nMap, nReduce);
    } else {
      RunInv(nMap, nReduce, run, k - 1);
      assert StepAt(run, k - 1);
      var step :| Enabled(run[k - 1], step) && run[k] == Apply(run[k - 1], step);
      StepInv(run[k - 1], step);
    }
  }

  // ---------- what the invariant means for the job ----------

  /** In every state of every run: HandleWorker never uses a nil task (the second call of
      getReduceTask finds one whenever the first did); a reduce task is not idle only if all
      map tasks are finished; dispatches less resets is one for a task that is not idle and
      zero otherwise; and a running task has one pending timer once its dispatch is over. */
  lemma CoordinatorIsSafe(nMap: nat, nReduce: nat, run: seq<State>, k: int, t: Task)
    requires IsRun(nMap, nReduce, run) && 0 <= k < |run| && Exists(run[k], t)
    ensures !run[k].pc.Crashed?
    ensures t.ReduceTask? && Get(run[k], t).status != NOTRUN ==> AllDone(run[k].maps)
    ensures Get(run[k], t).dispatched - Get(run[k], t).resets == if Get(run[k], t).status != NOTRUN then 1 else 0
    ensures Get(run[k], t).status == RUNNING && run[k].pc != StartTimer(t) ==> Get(run[k], t).timers == 1
  {
    hide IsRun;
    RunInv(nMap, nReduce, run, k);
    var s := run[k];
    assert t.MapTask? ==> CellOk(s.maps[t.index], s.pc == StartTimer(MapTask(t.index)));
    assert t.ReduceTask? ==> CellOk(s.reduces[t.index], s.pc == StartTimer(ReduceTask(t.index)));
  }

  /** Once finished, finished for the rest of the run. */
  lemma {:induction false} FinishedForever(nMap: nat, nReduce: nat, run: seq<State>, k: int, l: int, t: Task)
    requires IsRun(nMap, nReduce, run) && 0 <= k <= l < |run|
    requires Exists(run[k], t) && Get(run[k], t).status == FINISHED
    ensures Exists(run[l], t) && Get(run[l], t).status == FINISHED
    decreases l - k
  {
    if k < l {
      hide IsRun;
      FinishedForever(nMap, nReduce, run, k, l - 1, t);
      RunGrows(nMap, nReduce, run, l - 1);
    }
  }

  lemma RunGrows(nMap: nat, nReduce: nat, run: seq<State>, k: int)
    requires IsRun(nMap, nReduce, run) && 0 <= k < |run| - 1
    ensures Grows(run[k], run[k + 1])
  {
    hide Inv, Apply, Enabled, Grows;
    RunInv(nMap, nReduce, run, k);
    assert StepAt(run, k);
    var step :| Enabled(run[k], step) && run[k + 1] == Apply(run[k], step);
    StepInv(run[k], step);
  }

  /** Done answers only when everything is finished at that moment, if there are reduce tasks. */
  lemma DoneMeansFinished(nMap: nat, nReduce: nat, run: seq<State>, k: int)
    requires IsRun(nMap, nReduce, run) && 0 <= k < |run| && nReduce > 0
    requires run[k].done == Answered(true)
    ensures AllDone(run[k].maps) && AllDone(run[k].reduces)
  {
    hide IsRun;
    RunInv(nMap, nReduce, run, k);
    assert run[k].reduces[0].status == FINISHED;
  }

  ghost predicate DoneIsRight(nMap: nat, nReduce: nat)
  {
    forall run: seq<State>, k :: IsRun(nMap, nReduce, run) && 0 <= k < |run| && run[k].done == Answered(true) ==>
      AllDone(run[k].maps) && AllDone(run[k].reduces)
  }

  /** With map tasks but no reduce tasks Done answers at once, before anything has run. */
  lemma DoneTooEarly(nMap: nat) returns (run: seq<State>)
    requires nMap > 0
    ensures IsRun(nMap, 0, run) && |run| == 3 && run[2].done == Answered(true)
    ensures |run[2].maps| == nMap && forall i :: 0 <= i < nMap ==> run[2].maps[i].status == NOTRUN
  {
    var s0 := Start(nMap, 0);
    var s1 := Apply(s0, DoneStep);
    var s2 := Apply(s1, DoneStep);
    run := [s0, s1, s2];
    assert Enabled(s0, DoneStep) && Enabled(s1, DoneStep);
    assert StepAt(run, 0) && StepAt(run, 1);
  }

  /** Exactly when Done can be trusted. */
  lemma DoneIsRightIff(nMap: nat, nReduce: nat)
    ensures DoneIsRight(nMap, nReduce) <==> nReduce > 0 || nMap == 0
  {
    if nReduce > 0 {
      forall run: seq<State>, k | IsRun(nMap, nReduce, run) && 0 <= k < |run| && run[k].done == Answered(true)
        ensures AllDone(run[k].maps) && AllDone(run[k].reduces)
      {
        DoneMeansFinished(nMap, nReduce, run, k);
      }
    } else if nMap == 0 {
      forall run: seq<State>, k | IsRun(nMap, nReduce, run) && 0 <= k < |run| && run[k].done == Answered(true)
        ensures AllDone(run[k].maps) && AllDone(run[k].reduces)
      {
        RunInv(nMap, nReduce, run, k);
      }
    } else {
      var run := DoneTooEarly(nMap);
      assert IsRun(nMap, nReduce, run) && run[2].done == Answered(true) && run[2].maps[0].status == NOTRUN;
    }
  }

  // ---------- what an undisturbed request is handed ----------

  /** The first idle task from i on, or the number of tasks. */
  function FirstIdle(statuses: seq<int>, i: nat): (k: int)
    requires i <= |statuses|
    ensures i <= k <= |statuses| && (k < |statuses| ==> statuses[k] == NOTRUN)
    ensures forall x :: i <= x < k ==> statuses[x] != NOTRUN
    decreases |statuses| - i
  {
    if i == |statuses| || statuses[i] == NOTRUN then i else FirstIdle(statuses, i + 1)
  }

  predicate AllFinished(statuses: seq<int>)
  {
    forall i :: 0 <= i < |statuses| ==> statuses[i] == FINISHED
  }

  datatype Choice = NoTask | Take(task: Task)

  /** The first idle map task; once all map tasks are finished, the first idle reduce task. */
  function Pick(maps: seq<int>, reduces: seq<int>): Choice
  {
    if FirstIdle(maps, 0) < |maps| then Take(MapTask(FirstIdle(maps, 0)))
    else if AllFinished(maps) && FirstIdle(reduces, 0) < |reduces| then
      Take(ReduceTask(FirstIdle(reduces, 0)))
    else NoTask
  }

  function Statuses(cells: seq<Cell>): (r: seq<int>)
    ensures |r| == |cells| && forall i :: 0 <= i < |cells| ==> r[i] == cells[i].status
  {
    seq(|cells|, i requires 0 <= i < |cells| => cells[i].status)
  }

  /** n accesses of HandleWorker with nothing in between. */
  function Alone(s: State, n: nat): State
    decreases n
  {
    if n == 0 || !Enabled(s, Work) then s else Alone(DoWork(s), n - 1)
  }

  /** The task HandleWorker will find from where it is, if nobody interferes. */
  predicate Heading(s: State, t: Task)
  {
    var maps, reduces := Statuses(s.maps), Statuses(s.reduces);
    match s.pc
    case ScanMaps(i) =>
      i <= |maps| &&
      (if FirstIdle(maps, i) < |maps| then t == MapTask(FirstIdle(maps, i))
       else AllDone(s.maps) && FirstIdle(reduces, 0) < |reduces| && t == ReduceTask(FirstIdle(reduces, 0)))
    case CheckMaps(found, i) =>
      AllDone(s.maps) && FirstIdle(reduces, 0) < |reduces| && t == ReduceTask(FirstIdle(reduces, 0)) && found < |reduces|
    case ScanReduces(found, j) =>
      && AllDone(s.maps) && j <= FirstIdle(reduces, 0) < |reduces| && t == ReduceTask(FirstIdle(reduces, 0))
    case WriteStatus(u) => u == t && Exists(s, t)
    case _ => false
  }

  function Rank(pc: Pc): nat
  {
    match pc
    case ScanMaps(_) => 7
    case CheckMaps(found, _) => if found < 0 then 6 else 4
    case ScanReduces(found, _) => if found < 0 then 5 else 3
    case WriteStatus(_) => 2
    case StartTimer(_) => 1
    case _ => 0
  }

  function Left(s: State): nat
  {
    match s.pc
    case ScanMaps(i) => if i < |s.maps| then |s.maps| - i else 0
    case CheckMaps(_, i) => if i < |s.maps| then |s.maps| - i else 0
    case ScanReduces(_, j) => if j < |s.reduces| then |s.reduces| - j else 0
    case _ => 0
  }

  lemma HeadOne(s: State, t: Task)
    requires Heading(s, t) && !s.pc.WriteStatus?
    ensures Enabled(s, Work) && Heading(DoWork(s), t)
    ensures Rank(DoWork(s).pc) < Rank(s.pc) || (Rank(DoWork(s).pc) == Rank(s.pc) && Left(DoWork(s)) < Left(s))
  {
  }

  /** The state in which t has just been marked running and its timer is not started yet. */
  function Dispatching(s: State, t: Task): State
    requires Exists(s, t)
  {
    var c := Get(s, t);
    Put(s, t, c.(status := RUNNING, dispatched := c.dispatched + 1)).(pc := StartTimer(t))
  }

  lemma HeadSame(s: State, t: Task)
    requires Heading(s, t) && !s.pc.WriteStatus? && Enabled(s, Work)
    ensures DoWork(s).maps == s.maps && DoWork(s).reduces == s.reduces && DoWork(s).done == s.done
  {
  }

  lemma HeadExists(s: State, t: Task)
    requires Heading(s, t)
    ensures Exists(s, t)
  {
  }

  lemma {:induction false} HeadAll(s: State, t: Task) returns (n: nat)
    requires Heading(s, t)
    ensures Exists(s, t) && Alone(s, n) == Dispatching(s, t)
    decreases Rank(s.pc), Left(s)
  {
    HeadExists(s, t);
    if s.pc.WriteStatus? {
      n := 1;
      assert Alone(DoWork(s), 0) == DoWork(s);
    } else {
      HeadOne(s, t);
      HeadSame(s, t);
      hide Heading;
      var m := HeadAll(DoWork(s), t);
      n := m + 1;
      assert Dispatching(DoWork(s), t) == Dispatching(s, t);
    }
  }

  /** A request that runs undisturbed is handed task t: it is marked running, and nothing else. */
  ghost predicate Served(s: State, t: Task)
  {
    Exists(s, t) && exists n: nat :: Alone(s.(pc := ScanMaps(0)), n) == Dispatching(s, t)
  }

  /** Undisturbed, HandleWorker dispatches what `Pick` says. */
  lemma PickIsServed(s: State, t: Task)
    requires Pick(Statuses(s.maps), Statuses(s.reduces)) == Take(t)
    ensures Served(s, t)
  {
    var n := HeadAll(s.(pc := ScanMaps(0)), t);
    assert Dispatching(s.(pc := ScanMaps(0)), t) == Dispatching(s, t);
  }

  // ---------- the mutex is given back, and the job goes on ----------

  lemma WorkOne(s: State)
    requires Inv(s) && !s.pc.Idle? && !AllDone(s.reduces)
    ensures Enabled(s, Work) && Inv(DoWork(s)) && !AllDone(DoWork(s).reduces)
    ensures Rank(DoWork(s).pc) < Rank(s.pc) || (Rank(DoWork(s).pc) == Rank(s.pc) && Left(DoWork(s)) < Left(s))
  {
    assert Enabled(s, Work);
    WorkInv(s);
    hide CellsInv, OrderInv, DoneInv, Grows;
    var j :| 0 <= j < |s.reduces| && s.reduces[j].status != FINISHED;
    assert DoWork(s).reduces[j].status != FINISHED;
  }

  /** A handler left alone gives the mutex back. */
  lemma {:induction false} HandlerReturns(s: State) returns (n: nat)
    requires Inv(s) && !AllDone(s.reduces)
    ensures Alone(s, n).pc.Idle? && Inv(Alone(s, n)) && !AllDone(Alone(s, n).reduces)
    decreases Rank(s.pc), Left(s)
  {
    hide Inv, AllDone, DoWork;
    if s.pc.Idle? {
      n := 0;
    } else {
      WorkOne(s);
      var m := HandlerReturns(DoWork(s));
      n := m + 1;
    }
  }

  /** With the mutex free, a request that runs undisturbed is handed a task, or some running task
      has a timer that will put it back. */
  ghost predicate GoesOn(s: State)
  {
    && s.pc.Idle?
    && ((exists t :: Served(s, t)) || exists t :: Exists(s, t) && Get(s, t).status == RUNNING && Get(s, t).timers == 1)
  }

  lemma IdleGoesOn(s: State)
    requires Inv(s) && s.pc.Idle? && !AllDone(s.reduces)
    ensures GoesOn(s)
  {
    if i :| 0 <= i < |s.maps| && s.maps[i].status == RUNNING {
      assert CellOk(s.maps[i], false);
      assert Exists(s, MapTask(i)) && Get(s, MapTask(i)).timers == 1;
    } else if j :| 0 <= j < |s.reduces| && s.reduces[j].status == RUNNING {
      assert CellOk(s.reduces[j], false);
      assert Exists(s, ReduceTask(j)) && Get(s, ReduceTask(j)).timers == 1;
    } else {
      NoneRunning(s);
      PickIsServed(s, Pick(Statuses(s.maps), Statuses(s.reduces)).task);
    }
  }

  /** In every state of every run in which a reduce task is unfinished: the handler that holds the
      mutex, if there is one, gives it back after finitely many accesses of its own, and then the
      job goes on. */
  lemma NoStuckJob(nMap: nat, nReduce: nat, run: seq<State>, k: int)
    requires IsRun(nMap, nReduce, run) && 0 <= k < |run| && !AllDone(run[k].reduces)
    ensures exists n: nat :: GoesOn(Alone(run[k], n))
  {
    hide IsRun, Inv, AllDone, GoesOn, Alone;
    RunInv(nMap, nReduce, run, k);
    var n := HandlerReturns(run[k]);
    IdleGoesOn(Alone(run[k], n));
  }

  lemma NoneRunning(s: State)
    requires CellsInv(s.maps, s.reduces, s.pc) && !AllDone(s.reduces)
    requires forall i :: 0 <= i < |s.maps| ==> s.maps[i].status != RUNNING
    requires forall j :: 0 <= j < |s.reduces| ==> s.reduces[j].status != RUNNING
    ensures Pick(Statuses(s.maps), Statuses(s.reduces)).Take?
  {
    if FirstIdle(Statuses(s.maps), 0) == |s.maps| {
      forall i | 0 <= i < |s.maps| ensures s.maps[i].status == FINISHED {
        assert CellOk(s.maps[i], s.pc == StartTimer(MapTask(i)));
      }
      var j :| 0 <= j < |s.reduces| && s.reduces[j].status != FINISHED;
      assert CellOk(s.reduces[j], s.pc == StartTimer(ReduceTask(j)));
      assert Statuses(s.reduces)[j] == NOTRUN;
    }
  }
}
