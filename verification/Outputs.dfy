/** The outputs of the reduce tasks together are the output of the sequential program. */
module Outputs {
  import opened MapReduce
  import Strings

  // ---------- what reduce task r gets ----------

  lemma {:induction false} BucketSplit(a: seq<KeyValue>, b: seq<KeyValue>, hash: HashF, n: nat, r: int)
    requires n > 0
    ensures Bucket(a + b, hash, n, r) == Bucket(a, hash, n, r) + Bucket(b, hash, n, r)
  {
    if b == [] {
      assert a + b == a;
    } else {
      assert (a + b)[..|a + b| - 1] == a + b[..|b| - 1];
      BucketSplit(a, b[..|b| - 1], hash, n, r);
    }
  }

  lemma {:induction false} ColumnIsBucket(files: seq<File>, mapf: MapF, hash: HashF, n: nat, col: seq<seq<KeyValue>>, r: int)
    requires n > 0 && |col| == |files|
    requires forall i :: 0 <= i < |files| ==>
      multiset(col[i]) == multiset(Bucket(mapf(files[i].name, files[i].content), hash, n, r))
    ensures multiset(Concat(col)) == multiset(Bucket(MapAll(files, mapf), hash, n, r))
    decreases |files|
  {
    if files != [] {
      var k := |files| - 1;
      ColumnIsBucket(files[..k], mapf, hash, n, col[..k], r);
      BucketSplit(MapAll(files[..k], mapf), mapf(files[k].name, files[k].content), hash, n, r);
    }
  }

  // ---------- the line of a key ----------

  lemma {:induction false} BucketValues(kvs: seq<KeyValue>, hash: HashF, n: nat, r: int, k: string)
    requires n > 0
    ensures Values(Bucket(kvs, hash, n, r), k) == if hash(k) % n == r then Values(kvs, k) else []
  {
    if kvs != [] {
      var last := kvs[|kvs| - 1];
      var b := Bucket(kvs[..|kvs| - 1], hash, n, r);
      BucketValues(kvs[..|kvs| - 1], hash, n, r, k);
      if hash(last.key) % n == r {
        assert (b + [last])[..|b|] == b;
      } else {
        assert Bucket(kvs, hash, n, r) == b;
      }
    }
  }

  lemma {:induction false} KeyHasValues(kvs: seq<KeyValue>, k: string)
    ensures HasKey(kvs, k) <==> Values(kvs, k) != []
  {
    if kvs != [] {
      var m := |kvs| - 1;
      KeyHasValues(kvs[..m], k);
      if HasKey(kvs[..m], k) {
        var i :| 0 <= i < m && kvs[..m][i].key == k;
        assert kvs[i].key == k;
      }
      if HasKey(kvs, k) && kvs[m].key != k {
        var i :| 0 <= i < |kvs| && kvs[i].key == k;
        assert kvs[..m][i].key == k;
      }
    }
  }

  /** The one right line for its key. */
  ghost predicate RightLine(kvs: seq<KeyValue>, reducef: ReduceF, line: Line)
  {
    HasKey(kvs, line.key) && line.output == reducef(line.key, Values(kvs, line.key))
  }

  /** An output consists of the right lines, each once. */
  lemma OutputLines(kvs: seq<KeyValue>, reducef: ReduceF, lines: seq<Line>, x: Line)
    requires IsOutput(kvs, reducef, lines) && Insensitive(reducef)
    ensures multiset(lines)[x] == if RightLine(kvs, reducef, x) then 1 else 0
  {
    hide Values, HasKey;
    NoRepeats(lines, x);
    forall i | 0 <= i < |lines| ensures RightLine(kvs, reducef, lines[i]) {
      assert Reduces(kvs, reducef, lines[i]);
    }
    if RightLine(kvs, reducef, x) {
      var i :| 0 <= i < |lines| && lines[i].key == x.key;
      assert RightLine(kvs, reducef, lines[i]);
      assert x == lines[i];
      assert x in multiset(lines);
    } else {
      assert x !in lines;
    }
  }

  lemma {:induction false} NoRepeats(lines: seq<Line>, x: Line)
    requires forall i, j :: 0 <= i < j < |lines| ==> Strings.Less(lines[i].key, lines[j].key)
    ensures multiset(lines)[x] <= 1
  {
    if lines != [] {
      var m := |lines| - 1;
      assert lines == lines[..m] + [lines[m]];
      NoRepeats(lines[..m], x);
      Strings.Asymmetric(lines[m].key, lines[m].key);
      assert lines[m] !in lines[..m];
    }
  }

  // ---------- all reduce tasks together ----------

  function Flatten(outs: seq<seq<Line>>): seq<Line>
  {
    if outs == [] then [] else Flatten(outs[..|outs| - 1]) + outs[|outs| - 1]
  }

  /** A line that only task r can write is in the whole as often as in that task's output. */
  lemma {:induction false} FlattenCount(outs: seq<seq<Line>>, r: int, x: Line)
    requires 0 <= r
    requires forall i :: 0 <= i < |outs| && i != r ==> multiset(outs[i])[x] == 0
    ensures multiset(Flatten(outs))[x] == if r < |outs| then multiset(outs[r])[x] else 0
  {
    if outs != [] {
      FlattenCount(outs[..|outs| - 1], r, x);
    }
  }

  /** Each reduce task has reduced the pairs of its bucket. */
  ghost predicate AllReduced(all: seq<KeyValue>, hash: HashF, n: nat, reducef: ReduceF, outs: seq<seq<Line>>)
    requires n > 0
  {
    |outs| == n && forall r :: 0 <= r < n ==> IsOutput(Bucket(all, hash, n, r), reducef, outs[r])
  }

  lemma ReducerLines(all: seq<KeyValue>, hash: HashF, n: nat, reducef: ReduceF, out: seq<Line>, r: int, x: Line)
    requires n > 0 && Insensitive(reducef) && IsOutput(Bucket(all, hash, n, r), reducef, out)
    ensures multiset(out)[x] == if hash(x.key) % n == r && RightLine(all, reducef, x) then 1 else 0
  {
    hide *;
    OutputLines(Bucket(all, hash, n, r), reducef, out, x);
    RightLineOfBucket(all, hash, n, r, reducef, x);
  }

  lemma RightLineOfBucket(all: seq<KeyValue>, hash: HashF, n: nat, r: int, reducef: ReduceF, x: Line)
    requires n > 0
    ensures RightLine(Bucket(all, hash, n, r), reducef, x) <==> hash(x.key) % n == r && RightLine(all, reducef, x)
  {
    hide Values, HasKey, Bucket;
    BucketValues(all, hash, n, r, x.key);
    KeyHasValues(all, x.key);
    KeyHasValues(Bucket(all, hash, n, r), x.key);
  }

  lemma LineCounts(all: seq<KeyValue>, hash: HashF, n: nat, reducef: ReduceF, outs: seq<seq<Line>>, lines: seq<Line>, x: Line)
    requires n > 0 && Insensitive(reducef) && AllReduced(all, hash, n, reducef, outs) && IsOutput(all, reducef, lines)
    ensures multiset(Flatten(outs))[x] == multiset(lines)[x]
    ensures forall r :: 0 <= r < n && hash(x.key) % n != r ==> multiset(outs[r])[x] == 0
  {
    hide RightLine, IsOutput, Insensitive, Flatten, Bucket;
    forall r | 0 <= r < n
      ensures multiset(outs[r])[x] == if hash(x.key) % n == r && RightLine(all, reducef, x) then 1 else 0
    {
      ReducerLines(all, hash, n, reducef, outs[r], r, x);
    }
    FlattenCount(outs, hash(x.key) % n, x);
    OutputLines(all, reducef, lines, x);
  }

  /** The distributed job writes the lines of the sequential program: the same lines, each as
      often, and the line of a key only in the output of the reducer of that key. */
  lemma JobEqualsSequential(all: seq<KeyValue>, hash: HashF, n: nat, reducef: ReduceF, outs: seq<seq<Line>>, lines: seq<Line>)
    requires n > 0 && Insensitive(reducef) && AllReduced(all, hash, n, reducef, outs) && IsOutput(all, reducef, lines)
    ensures multiset(Flatten(outs)) == multiset(lines)
    ensures forall r, i :: 0 <= r < n && 0 <= i < |outs[r]| ==> hash(outs[r][i].key) % n == r
  {
    hide IsOutput, Insensitive, Flatten;
    forall x ensures multiset(Flatten(outs))[x] == multiset(lines)[x] {
      LineCounts(all, hash, n, reducef, outs, lines, x);
    }
    forall r, i | 0 <= r < n && 0 <= i < |outs[r]| ensures hash(outs[r][i].key) % n == r {
      LineCounts(all, hash, n, reducef, outs, lines, outs[r][i]);
      assert outs[r][i] in multiset(outs[r]);
    }
  }
}
