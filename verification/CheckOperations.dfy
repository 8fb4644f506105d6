/** The whole checker on a key-value history: partition by key, make entries, check in parallel. */
module CheckOperations {
  import opened Linearizability
  import opened Entries
  import opened Kv
  import Locality
  import KvMeaning
  import Parallel

  /** The histories handed to the workers. */
  ghost predicate Prepared(history: seq<KvOp>, parts: seq<seq<KvOp>>, keys: seq<string>,
                           l: seq<seq<Entry<KvInput, KvOutput>>>)
  {
    && IsPartition(history, parts, keys)
    && |l| == |parts|
    && (forall i :: 0 <= i < |l| ==> IsEntries(parts[i], l[i]))
    && ((forall i :: 0 <= i < |l| ==> WellFormed(l[i])) <==> Timed(history))
  }

  lemma PartTimed(history: seq<KvOp>, k: string)
    requires Timed(history)
    ensures Timed(OfKey(history, k))
  {
    var s := OfKey(history, k);
    forall i | 0 <= i < |s| ensures s[i].call <= s[i].ret {
      OfKeyIn(history, k, s[i]);
    }
  }

  /** Nothing returns before it is called exactly when this holds of every part. */
  lemma PartsTimed(history: seq<KvOp>, parts: seq<seq<KvOp>>, keys: seq<string>)
    requires IsPartition(history, parts, keys)
    ensures (forall i :: 0 <= i < |parts| ==> Timed(parts[i])) <==> Timed(history)
  {
    hide OfKey;
    if Timed(history) {
      forall i | 0 <= i < |parts| ensures Timed(parts[i]) {
        PartTimed(history, keys[i]);
      }
    }
    if forall i :: 0 <= i < |parts| ==> Timed(parts[i]) {
      forall j | 0 <= j < |history| ensures history[j].call <= history[j].ret {
        var key := history[j].input.key;
        OfKeyIn(history, key, history[j]);
        var i :| 0 <= i < |keys| && keys[i] == key;
        var p :| 0 <= p < |parts[i]| && parts[i][p] == history[j];
      }
    }
  }

  method Prepare(history: seq<KvOp>)
    returns (parts: seq<seq<KvOp>>, keys: seq<string>, l: seq<seq<Entry<KvInput, KvOutput>>>)
    ensures Prepared(history, parts, keys, l)
  {
    parts, keys := Partition(history);
    hide IsEntries, WellFormed, Timed, OfKey;
    l := [];
    for i := 0 to |parts|
      invariant |l| == i && forall j :: 0 <= j < i ==> IsEntries(parts[j], l[j])
      invariant forall j :: 0 <= j < i ==> (WellFormed(l[j]) <==> Timed(parts[j]))
    {
      var entries := MakeEntries(parts[i]);
      l := l + [entries];
    }
    PartsTimed(history, parts, keys);
  }

  /** The workers' histories are linearizable exactly when the parts are. */
  lemma PartEntries(history: seq<KvOp>, parts: seq<seq<KvOp>>, keys: seq<string>,
                    l: seq<seq<Entry<KvInput, KvOutput>>>, i: int)
    requires Timed(history) && Prepared(history, parts, keys, l) && 0 <= i < |l|
    ensures LinearizableEntries(KeyModel(), l[i]) <==> Linearizable(KeyModel(), parts[i])
  {
    hide IsEntries, Linearizable, WellFormed, LinearizableEntries, OfKey;
    PartTimed(history, keys[i]);
    SameLinearizable(KeyModel(), parts[i], l[i]);
  }

  function TaskOf(l: seq<seq<Entry<KvInput, KvOutput>>>, computeInfo: bool, timeout: bool)
    : Parallel.Task<string, KvInput, KvOutput>
  {
    Parallel.Task(KeyModel(), l, computeInfo, timeout)
  }

  /** Every run of the checker on a key-value history: Ok means that the history of the whole
      store is linearizable, that is, some order that respects real time explains every get;
      Illegal means that none does. */
  lemma VerdictIsRight(history: seq<KvOp>, parts: seq<seq<KvOp>>, keys: seq<string>, l: seq<seq<Entry<KvInput, KvOutput>>>,
                       computeInfo: bool, timeout: bool, run: seq<Parallel.State>, k: int)
    requires Timed(history) && Prepared(history, parts, keys, l)
    requires Parallel.IsRun(TaskOf(l, computeInfo, timeout), run)
    requires 0 <= k < |run| && run[k].phase.Returned?
    ensures run[k].phase.result == Parallel.Ok ==> Linearizable(StoreModel(), history) && KvMeaning.Explained(history)
    ensures run[k].phase.result == Parallel.Illegal ==> !Linearizable(StoreModel(), history) && !KvMeaning.Explained(history)
    ensures run[k].phase.result == Parallel.Unknown ==> timeout
  {
    hide IsEntries, Linearizable, WellFormed, LinearizableEntries, IsPartition, Parallel.IsRun, KvMeaning.Explained;
    KvMeaning.LinearizableMeansExplained(history);
    Parallel.VerdictsAreGenuine(TaskOf(l, computeInfo, timeout), run, k);
    Locality.PartitionIsLocal(history, parts, keys);
    forall i | 0 <= i < |l| ensures LinearizableEntries(KeyModel(), l[i]) <==> Linearizable(KeyModel(), parts[i]) {
      PartEntries(history, parts, keys, l, i);
    }
  }

  lemma NoKeys(history: seq<KvOp>, keys: seq<string>)
    requires forall k :: k in keys <==> OfKey(history, k) != []
    ensures keys == [] <==> history == []
  {
    if history != [] {
      assert OfKey(history, history[0].input.key) != [];
    } else if |keys| > 0 {
      assert OfKey(history, keys[0]) == [];
      assert false;
    }
  }

  /** Only the empty history has no parts, and on it nothing but a timeout can ever happen:
      without one the checker does not answer. */
  lemma EmptyHistoryHangs(history: seq<KvOp>, parts: seq<seq<KvOp>>, keys: seq<string>, l: seq<seq<Entry<KvInput, KvOutput>>>,
                          computeInfo: bool, timeout: bool, step: Parallel.Step)
    requires Prepared(history, parts, keys, l)
    ensures |l| == 0 <==> history == []
    ensures history == [] ==>
      (Parallel.Enabled(TaskOf(l, computeInfo, timeout), Parallel.Start(), step) <==> step.TimeOut? && timeout)
  {
    NoKeys(history, keys);
    if history == [] {
      Parallel.NoPartitionsHang(TaskOf(l, computeInfo, timeout), step);
    }
  }

  /** A run of the checker that cannot go on has answered if and only if the history is not empty
      or a timeout is set; and every run is short enough to come to that. */
  lemma AnswersIff(history: seq<KvOp>, parts: seq<seq<KvOp>>, keys: seq<string>, l: seq<seq<Entry<KvInput, KvOutput>>>,
                   computeInfo: bool, timeout: bool, run: seq<Parallel.State>)
    requires Timed(history) && Prepared(history, parts, keys, l)
    requires Parallel.IsRun(TaskOf(l, computeInfo, timeout), run)
    ensures |run| <= 2 * |keys| + 3
    ensures !Parallel.CanStep(TaskOf(l, computeInfo, timeout), run[|run| - 1]) ==>
      (run[|run| - 1].phase.Returned? <==> history != [] || timeout)
  {
    NoKeys(history, keys);
    hide IsEntries, WellFormed, Parallel.IsRun, Parallel.CanStep, OfKey;
    var t := TaskOf(l, computeInfo, timeout);
    Parallel.RunsAreBounded(t, run);
    if !Parallel.CanStep(t, run[|run| - 1]) {
      Parallel.ReturnsIff(t, run);
    }
  }
}
