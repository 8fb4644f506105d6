/** The coordinator as the code has it: task objects whose status is updated in place. Each
    method here runs undisturbed; what interleavings add is the subject of `Coordinator`. */
module CoordinatorObject {
  import opened Coordinator

  /** An input file, or the file mr-m-r written by map task m for reduce task r. */
  datatype FileName = Input(name: string) | Intermediate(m: nat, r: nat)

  /** The files of reduce task r: one from each of the first n map tasks. */
  predicate ColumnNames(names: seq<FileName>, n: nat, r: nat)
  {
    |names| == n && forall m :: 0 <= m < n ==> names[m] == Intermediate(m + 1, r)
  }

  class TaskObject {
    const id: nat
    const files: seq<FileName>
    var status: int

    constructor (id: nat, files: seq<FileName>)
      ensures this.id == id && this.files == files && status == NOTRUN
    {
      this.id, this.files, status := id, files, NOTRUN;
    }

    /** Compare-and-swap of the status. */
    method CompareAndSwap(was: int, now: int)
      modifies this
      ensures status == if old(status) == was then now else old(status)
    {
      if status == was {
        status := now;
      }
    }
  }

  datatype Reply = Nothing | Reply(task: Task, files: seq<FileName>, reduceN: nat)

  ghost function StatusesOf(tasks: seq<TaskObject>): (r: seq<int>)
    reads tasks
    ensures |r| == |tasks| && forall i :: 0 <= i < |tasks| ==> r[i] == tasks[i].status
  {
    seq(|tasks|, i requires 0 <= i < |tasks| reads tasks => tasks[i].status)
  }

  ghost predicate Separate(tasks: seq<TaskObject>)
  {
    forall i, j :: 0 <= i < j < |tasks| ==> tasks[i] != tasks[j]
  }

  /** Changing one task's status changes one place of the statuses. */
  lemma OneChanged(tasks: seq<TaskObject>, was: seq<int>, k: int, status: int)
    requires |was| == |tasks| && 0 <= k < |tasks| && tasks[k].status == status
    requires forall i :: 0 <= i < |tasks| && i != k ==> tasks[i].status == was[i]
    ensures StatusesOf(tasks) == was[k := status]
  {
  }

  class MapReduceCoordinator {
    const maps: seq<TaskObject>
    const reduces: seq<TaskObject>
    const reduceN: nat

    ghost predicate Valid()
    {
      && Separate(maps) && Separate(reduces) && |reduces| == reduceN
      && (forall i, j :: 0 <= i < |maps| && 0 <= j < |reduces| ==> maps[i] != reduces[j])
      && (forall i :: 0 <= i < |maps| ==> maps[i].id == i + 1)
      && (forall j :: 0 <= j < |reduces| ==> reduces[j].id == j + 1)
    }

    constructor (files: seq<string>, nReduce: nat)
      ensures Valid() && |maps| == |files| && reduceN == nReduce
      ensures forall i :: 0 <= i < |maps| ==> maps[i].status == NOTRUN && maps[i].files == [Input(files[i])]
      ensures forall r :: 0 <= r < |reduces| ==> reduces[r].status == NOTRUN && |reduces[r].files| == |files|
      ensures forall r, m :: 0 <= r < |reduces| && 0 <= m < |files| ==> reduces[r].files[m] == Intermediate(m + 1, r + 1)
      ensures fresh(maps) && fresh(reduces)
    {
      var ms: seq<TaskObject> := [];
      for i := 0 to |files|
        invariant |ms| == i && fresh(ms) && Separate(ms)
        invariant forall x :: 0 <= x < i ==> ms[x].id == x + 1 && ms[x].status == NOTRUN && ms[x].files == [Input(files[x])]
      {
        var t := new TaskObject(i + 1, [Input(files[i])]);
        ms := ms + [t];
      }
      var rs: seq<TaskObject> := [];
      for r := 0 to nReduce
        invariant |rs| == r && fresh(rs) && Separate(rs)
        invariant forall i, j :: 0 <= i < |ms| && 0 <= j < |rs| ==> ms[i] != rs[j]
        invariant forall x :: 0 <= x < r ==> rs[x].id == x + 1 && rs[x].status == NOTRUN && ColumnNames(rs[x].files, |files|, x + 1)
        invariant forall x :: 0 <= x < |ms| ==> ms[x].status == NOTRUN
      {
        var names: seq<FileName> := [];
        for m := 0 to |files|
          invariant ColumnNames(names, m, r + 1)
        {
          names := names + [Intermediate(m + 1, r + 1)];
        }
        var t := new TaskObject(r + 1, names);
        rs := rs + [t];
      }
      maps, reduces, reduceN := ms, rs, nReduce;
    }

    /** The first idle task, or null. */
    static method FirstNotRun(tasks: seq<TaskObject>) returns (t: TaskObject?)
      ensures var k := FirstIdle(StatusesOf(tasks), 0); t == if k < |tasks| then tasks[k] else null
    {
      for i := 0 to |tasks|
        invariant FirstIdle(StatusesOf(tasks), 0) == FirstIdle(StatusesOf(tasks), i)
      {
        if tasks[i].status == NOTRUN {
          return tasks[i];
        }
      }
      return null;
    }

    method GetMapTask() returns (t: TaskObject?)
      ensures var k := FirstIdle(StatusesOf(maps), 0); t == if k < |maps| then maps[k] else null
    {
      t := FirstNotRun(maps);
    }

    /** The first idle reduce task, once all map tasks are finished. */
    method GetReduceTask() returns (t: TaskObject?)
      ensures var ms, k := StatusesOf(maps), FirstIdle(StatusesOf(reduces), 0);
              t == if AllFinished(ms) && k < |reduces| then reduces[k] else null
    {
      for i := 0 to |maps|
        invariant forall x :: 0 <= x < i ==> maps[x].status == FINISHED
      {
        if maps[i].status != FINISHED {
          return null;
        }
      }
      t := FirstNotRun(reduces);
    }

    /** Hands out what `Pick` says, marks it running and changes nothing else. */
    method HandleWorker() returns (reply: Reply)
      requires Valid()
      modifies maps, reduces
      ensures Dispatched(Pick(old(StatusesOf(maps)), old(StatusesOf(reduces))), reply, old(StatusesOf(maps)),
                         old(StatusesOf(reduces)), StatusesOf(maps), StatusesOf(reduces))
    {
      hide FirstIdle, Pick, AllFinished, Separate, Dispatched, Valid;
      ghost var ms, rs := StatusesOf(maps), StatusesOf(reduces);
      reply := Nothing;
      ghost var k, j := FirstIdle(ms, 0), FirstIdle(rs, 0);
      var mapTask := GetMapTask();
      if mapTask != null {
        MapFacts(k);
        MarkRunning(mapTask, maps, reduces, k);
        reply := Reply(MapTask(mapTask.id - 1), mapTask.files, reduceN);
        MapDispatched(ms, rs, k, reply);
      } else {
        var first := GetReduceTask();
        if first != null {
          var reduceTask := GetReduceTask();
          ReduceFacts(j);
          MarkRunning(reduceTask, reduces, maps, j);
          reply := Reply(ReduceTask(reduceTask.id - 1), reduceTask.files, reduceN);
          ReduceDispatched(ms, rs, j, reply);
        } else {
          NothingDispatched(ms, rs);
        }
      }
    }

    lemma MapFacts(k: int)
      requires Valid() && 0 <= k < |maps|
      ensures Separate(maps) && maps[k] !in reduces && maps[k].id == k + 1
    {
    }

    lemma ReduceFacts(k: int)
      requires Valid() && 0 <= k < |reduces|
      ensures Separate(reduces) && reduces[k] !in maps && reduces[k].id == k + 1
    {
    }

    lemma MapDispatched(ms: seq<int>, rs: seq<int>, k: int, reply: Reply)
      requires k == FirstIdle(ms, 0) < |ms| == |maps| && reply == Reply(MapTask(k), maps[k].files, reduceN)
      ensures Dispatched(Pick(ms, rs), reply, ms, rs, ms[k := RUNNING], rs)
    {
    }

    lemma ReduceDispatched(ms: seq<int>, rs: seq<int>, k: int, reply: Reply)
      requires FirstIdle(ms, 0) == |ms| && AllFinished(ms)
      requires k == FirstIdle(rs, 0) < |rs| == |reduces| && reply == Reply(ReduceTask(k), reduces[k].files, reduceN)
      ensures Dispatched(Pick(ms, rs), reply, ms, rs, ms, rs[k := RUNNING])
    {
    }

    lemma NothingDispatched(ms: seq<int>, rs: seq<int>)
      requires FirstIdle(ms, 0) == |ms|
      requires FirstIdle(rs, 0) == |rs| || !AllFinished(ms)
      ensures Dispatched(Pick(ms, rs), Nothing, ms, rs, ms, rs)
    {
    }

    /** The chosen task, and only it, went to running; the reply describes it. */
    ghost predicate Dispatched(choice: Choice, reply: Reply, ms: seq<int>, rs: seq<int>, ms': seq<int>, rs': seq<int>)
    {
      match choice
      case NoTask => reply == Nothing && ms' == ms && rs' == rs
      case Take(MapTask(k)) =>
        k < |maps| && k < |ms| && reply == Reply(MapTask(k), maps[k].files, reduceN) && ms' == ms[k := RUNNING] && rs' == rs
      case Take(ReduceTask(k)) =>
        k < |reduces| && k < |rs| && reply == Reply(ReduceTask(k), reduces[k].files, reduceN) && rs' == rs[k := RUNNING] && ms' == ms
    }

    static method MarkRunning(t: TaskObject, ghost tasks: seq<TaskObject>, ghost others: seq<TaskObject>, ghost k: int)
      requires 0 <= k < |tasks| && tasks[k] == t && Separate(tasks) && t !in others
      modifies t
      ensures StatusesOf(tasks) == old(StatusesOf(tasks))[k := RUNNING]
      ensures StatusesOf(others) == old(StatusesOf(others))
    {
      ghost var was := StatusesOf(tasks);
      t.status := RUNNING;
      OneChanged(tasks, was, k, RUNNING);
    }

    /** A worker reports a task finished; ids are the reported ones, from 1. */
    method HandleFinish(map_: bool, id: nat)
      requires Valid() && 1 <= id <= if map_ then |maps| else |reduces|
      modifies maps, reduces
      ensures Reported(if map_ then MapTask(id - 1) else ReduceTask(id - 1), old(StatusesOf(maps)), old(StatusesOf(reduces)),
                       StatusesOf(maps), StatusesOf(reduces))
    {
      ghost var ms, rs := StatusesOf(maps), StatusesOf(reduces);
      if map_ {
        maps[id - 1].CompareAndSwap(RUNNING, FINISHED);
        assert StatusesOf(reduces) == rs;
      } else {
        reduces[id - 1].CompareAndSwap(RUNNING, FINISHED);
        assert StatusesOf(maps) == ms;
      }
    }

    method Done() returns (done: bool)
      ensures done <==> forall j :: 0 <= j < |reduces| ==> reduces[j].status == FINISHED
    {
      for j := 0 to |reduces|
        invariant forall x :: 0 <= x < j ==> reduces[x].status == FINISHED
      {
        if reduces[j].status != FINISHED {
          return false;
        }
      }
      return true;
    }
  }
}
