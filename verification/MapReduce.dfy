/** The data plane of MapReduce: map tasks that split their output into buckets, reduce tasks
    that gather, sort and group, and the sequential program they are compared with. */
module MapReduce {
  import opened Sorting
  import Collections
  import Strings

  datatype KeyValue = KeyValue(key: string, value: string)
  datatype Line = Line(key: string, output: string)
  datatype File = File(name: string, content: string)

  type MapF = (string, string) -> seq<KeyValue>
  type ReduceF = (string, seq<string>) -> string
  type HashF = string -> nat

  predicate ByKey(a: KeyValue, b: KeyValue)
  {
    Strings.Less(a.key, b.key)
  }

  ghost predicate KeySorted(s: seq<KeyValue>)
  {
    Sorted(s, (a, b) => ByKey(a, b))
  }

  lemma ByKeyIsOrder()
    ensures Order<KeyValue>((a, b) => ByKey(a, b))
  {
    forall a, b: KeyValue ensures ByKey(a, b) ==> !ByKey(b, a) { Strings.Asymmetric(a.key, b.key); }
    forall a, b, c: KeyValue ensures !ByKey(b, a) && !ByKey(c, b) ==> !ByKey(c, a) { Strings.Transitive(a.key, b.key, c.key); }
  }

  method SortByKey(s: seq<KeyValue>) returns (r: seq<KeyValue>)
    ensures multiset(r) == multiset(s) && KeySorted(r)
  {
    ByKeyIsOrder();
    r := Sort(s, (a, b) => ByKey(a, b));
  }

  // ---------- what is computed ----------

  /** All pairs the map function emits for the files, in order. */
  function MapAll(files: seq<File>, mapf: MapF): seq<KeyValue>
  {
    if files == [] then [] else
      MapAll(files[..|files| - 1], mapf) + mapf(files[|files| - 1].name, files[|files| - 1].content)
  }

  /** The pairs that go to reduce task r. */
  function Bucket(kvs: seq<KeyValue>, hash: HashF, n: nat, r: int): seq<KeyValue>
    requires n > 0
  {
    if kvs == [] then [] else
      var last := kvs[|kvs| - 1];
      Bucket(kvs[..|kvs| - 1], hash, n, r) + if hash(last.key) % n == r then [last] else []
  }

  /** The values of one key, in order. */
  function Values(kvs: seq<KeyValue>, k: string): seq<string>
  {
    if kvs == [] then [] else
      var last := kvs[|kvs| - 1];
      Values(kvs[..|kvs| - 1], k) + if last.key == k then [last.value] else []
  }

  predicate HasKey(kvs: seq<KeyValue>, k: string)
  {
    exists i :: 0 <= i < |kvs| && kvs[i].key == k
  }

  /** The reduce function does not care about the order of its values. */
  ghost predicate Insensitive(reducef: ReduceF)
  {
    forall k, vs, ws :: multiset(vs) == multiset(ws) ==> reducef(k, vs) == reducef(k, ws)
  }

  /** A line for key k that reduces exactly the values of k, in some order. */
  ghost predicate Reduces(kvs: seq<KeyValue>, reducef: ReduceF, line: Line)
  {
    exists vs :: multiset(vs) == multiset(Values(kvs, line.key)) && line.output == reducef(line.key, vs)
  }

  /** One line per key, in the order of the keys, each reducing all values of its key. */
  ghost predicate IsOutput(kvs: seq<KeyValue>, reducef: ReduceF, lines: seq<Line>)
  {
    && (forall i, j :: 0 <= i < j < |lines| ==> Strings.Less(lines[i].key, lines[j].key))
    && (forall i :: 0 <= i < |lines| ==> HasKey(kvs, lines[i].key) && Reduces(kvs, reducef, lines[i]))
    && (forall k :: HasKey(kvs, k) ==> exists i :: 0 <= i < |lines| && lines[i].key == k)
  }

  // ---------- grouping ----------

  /** The values of the pairs from i on. */
  method Collect(kvs: seq<KeyValue>, i: int, j: int) returns (values: seq<string>)
    requires 0 <= i <= j <= |kvs|
    ensures |values| == j - i && forall k :: 0 <= k < |values| ==> values[k] == kvs[i + k].value
  {
    values := [];
    for k := i to j
      invariant |values| == k - i && forall x :: 0 <= x < |values| ==> values[x] == kvs[i + x].value
    {
      values := values + [kvs[k].value];
    }
  }

  lemma {:induction false} ValuesSplit(a: seq<KeyValue>, b: seq<KeyValue>, k: string)
    ensures Values(a + b, k) == Values(a, k) + Values(b, k)
  {
    if b == [] {
      assert a + b == a;
    } else {
      assert (a + b)[..|a + b| - 1] == a + b[..|b| - 1];
      ValuesSplit(a, b[..|b| - 1], k);
    }
  }

  lemma {:induction false} ValuesOfOne(s: seq<KeyValue>, k: string, values: seq<string>)
    requires |values| == |s| && forall i :: 0 <= i < |s| ==> s[i].key == k && values[i] == s[i].value
    ensures Values(s, k) == values
  {
    if s != [] {
      ValuesOfOne(s[..|s| - 1], k, values[..|s| - 1]);
      assert values == values[..|s| - 1] + [values[|s| - 1]];
    }
  }

  lemma {:induction false} ValuesOfNone(s: seq<KeyValue>, k: string)
    requires forall i :: 0 <= i < |s| ==> s[i].key != k
    ensures Values(s, k) == []
  {
    if s != [] {
      ValuesOfNone(s[..|s| - 1], k);
    }
  }

  lemma ValuesOfRun(s: seq<KeyValue>, i: int, j: int, k: string, values: seq<string>)
    requires 0 <= i <= j <= |s| && |values| == j - i
    requires forall x :: i <= x < j ==> s[x].key == k && values[x - i] == s[x].value
    requires forall x :: 0 <= x < i ==> s[x].key != k
    requires forall x :: j <= x < |s| ==> s[x].key != k
    ensures Values(s, k) == values
  {
    hide Values;
    var before, during, after := s[..i], s[i..j], s[j..];
    assert s == s[..j] + after && s[..j] == before + during;
    calc {
      Values(s, k);
      { ValuesSplit(s[..j], after, k); ValuesOfNone(after, k); }
      Values(s[..j], k) + [];
      Values(s[..j], k);
      { ValuesSplit(before, during, k); ValuesOfNone(before, k); }
      [] + Values(during, k);
      Values(during, k);
      { ValuesOfOne(during, k, values); }
      values;
    }
  }

  /** In a sorted sequence a maximal run of equal keys has all of that key's pairs. */
  lemma RunIsAll(s: seq<KeyValue>, i: int, j: int, values: seq<string>)
    requires KeySorted(s) && 0 <= i < j <= |s|
    requires forall k :: i <= k < j ==> s[k].key == s[i].key
    requires i > 0 ==> s[i - 1].key != s[i].key
    requires j < |s| ==> s[j].key != s[i].key
    requires |values| == j - i && forall k :: 0 <= k < |values| ==> values[k] == s[i + k].value
    ensures Values(s, s[i].key) == values
    ensures forall k :: 0 <= k < i ==> Strings.Less(s[k].key, s[i].key)
    ensures forall k :: j <= k < |s| ==> Strings.Less(s[i].key, s[k].key)
  {
    hide KeySorted, Values, Strings.Less;
    var key := s[i].key;
    Strings.Asymmetric(key, key);
    forall k | 0 <= k < i ensures Strings.Less(s[k].key, key) {
      BeforeRun(s, k, i - 1, i);
    }
    forall k | j <= k < |s| ensures Strings.Less(key, s[k].key) {
      AfterRun(s, i, j, k);
    }
    ValuesOfRun(s, i, j, key, values);
  }

  lemma SortedKeys(s: seq<KeyValue>, i: int, j: int)
    requires KeySorted(s) && 0 <= i <= j < |s|
    ensures !Strings.Less(s[j].key, s[i].key)
  {
    var less := (a: KeyValue, b: KeyValue) => ByKey(a, b);
    if i == j { Strings.Asymmetric(s[i].key, s[i].key); } else { assert !less(s[j], s[i]); }
  }

  lemma BeforeRun(s: seq<KeyValue>, k: int, p: int, i: int)
    requires KeySorted(s) && 0 <= k <= p < i < |s| && s[p].key != s[i].key
    ensures Strings.Less(s[k].key, s[i].key)
  {
    SortedKeys(s, p, i);
    SortedKeys(s, k, p);
    SortedKeys(s, k, i);
    if !Strings.Less(s[k].key, s[i].key) {
      Strings.Total(s[k].key, s[i].key);
      Strings.Total(s[p].key, s[i].key);
      assert false;
    }
  }

  lemma AfterRun(s: seq<KeyValue>, i: int, j: int, k: int)
    requires KeySorted(s) && 0 <= i < j <= k < |s| && s[j].key != s[i].key
    ensures Strings.Less(s[i].key, s[k].key)
  {
    SortedKeys(s, i, j);
    SortedKeys(s, j, k);
    SortedKeys(s, i, k);
    if !Strings.Less(s[i].key, s[k].key) {
      Strings.Total(s[i].key, s[k].key);
      Strings.Total(s[i].key, s[j].key);
      assert false;
    }
  }

  ghost predicate HasLine(lines: seq<Line>, k: string)
  {
    exists l :: 0 <= l < |lines| && lines[l].key == k
  }

  ghost predicate Increasing(lines: seq<Line>)
  {
    forall i, j :: 0 <= i < j < |lines| ==> Strings.Less(lines[i].key, lines[j].key)
  }

  /** The lines are those of the keys among the first i pairs. */
  ghost predicate GroupedTo(s: seq<KeyValue>, reducef: ReduceF, i: int, lines: seq<Line>)
    requires 0 <= i <= |s|
  {
    && Increasing(lines)
    && (forall l :: 0 <= l < |lines| ==> HasKey(s[..i], lines[l].key) && Reduces(s, reducef, lines[l]))
    && (forall x :: 0 <= x < i ==> HasLine(lines, s[x].key))
  }

  lemma AddLine(s: seq<KeyValue>, reducef: ReduceF, i: int, j: int, lines: seq<Line>, values: seq<string>)
    requires 0 <= i < j <= |s| && GroupedTo(s, reducef, i, lines)
    requires forall k :: i <= k < j ==> s[k].key == s[i].key
    requires Values(s, s[i].key) == values
    requires forall k :: 0 <= k < i ==> Strings.Less(s[k].key, s[i].key)
    ensures GroupedTo(s, reducef, j, lines + [Line(s[i].key, reducef(s[i].key, values))])
  {
    hide Values, Strings.Less, HasKey, HasLine, Reduces;
    var line := Line(s[i].key, reducef(s[i].key, values));
    var more := lines + [line];
    ReducesAll(s, reducef, line, values);
    HasKeyAt(s[..j], i);
    forall l | 0 <= l < |lines| ensures HasKey(s[..j], lines[l].key) && Strings.Less(lines[l].key, line.key) {
      KeyBefore(s, i, j, lines[l].key, line.key);
    }
    forall x | 0 <= x < j ensures HasLine(more, s[x].key) {
      HasLineMore(lines, line, s[x].key);
    }
  }

  lemma ReducesAll(s: seq<KeyValue>, reducef: ReduceF, line: Line, values: seq<string>)
    requires values == Values(s, line.key) && line.output == reducef(line.key, values)
    ensures Reduces(s, reducef, line)
  {
  }

  lemma HasKeyAt(s: seq<KeyValue>, i: int)
    requires 0 <= i < |s|
    ensures HasKey(s, s[i].key)
  {
  }

  lemma KeyBefore(s: seq<KeyValue>, i: int, j: int, k: string, key: string)
    requires 0 <= i <= j <= |s| && HasKey(s[..i], k)
    requires forall x :: 0 <= x < i ==> Strings.Less(s[x].key, key)
    ensures HasKey(s[..j], k) && Strings.Less(k, key)
  {
    var x :| 0 <= x < |s[..i]| && s[..i][x].key == k;
    assert s[..j][x].key == k;
  }

  lemma HasLineMore(lines: seq<Line>, line: Line, k: string)
    requires HasLine(lines, k) || k == line.key
    ensures HasLine(lines + [line], k)
  {
    if HasLine(lines, k) {
      var l :| 0 <= l < |lines| && lines[l].key == k;
      assert (lines + [line])[l].key == k;
    } else {
      assert (lines + [line])[|lines|].key == k;
    }
  }

  lemma GroupedAll(s: seq<KeyValue>, reducef: ReduceF, lines: seq<Line>)
    requires GroupedTo(s, reducef, |s|, lines)
    ensures IsOutput(s, reducef, lines)
  {
    assert s[..|s|] == s;
    forall k | HasKey(s, k) ensures exists i :: 0 <= i < |lines| && lines[i].key == k {
      var x :| 0 <= x < |s| && s[x].key == k;
      assert HasLine(lines, s[x].key);
    }
  }

  /** Calls reduce once for each run of equal keys. */
  method Group(s: seq<KeyValue>, reducef: ReduceF) returns (lines: seq<Line>)
    requires KeySorted(s)
    ensures IsOutput(s, reducef, lines)
  {
    hide KeySorted, Values, GroupedTo, IsOutput, Strings.Less;
    lines := [];
    var i := 0;
    GroupedNone(s, reducef);
    while i < |s|
      invariant 0 <= i <= |s| && (0 < i < |s| ==> s[i - 1].key != s[i].key)
      invariant GroupedTo(s, reducef, i, lines)
    {
      var j := i + 1;
      while j < |s| && s[j].key == s[i].key
        invariant i < j <= |s| && forall k :: i <= k < j ==> s[k].key == s[i].key
      {
        j := j + 1;
      }
      var values := Collect(s, i, j);
      RunIsAll(s, i, j, values);
      AddLine(s, reducef, i, j, lines, values);
      lines := lines + [Line(s[i].key, reducef(s[i].key, values))];
      i := j;
    }
    GroupedAll(s, reducef, lines);
  }

  lemma GroupedNone(s: seq<KeyValue>, reducef: ReduceF)
    ensures GroupedTo(s, reducef, 0, [])
  {
  }

  // ---------- sorting first changes nothing that reduce can see ----------

  lemma {:induction false} ValuesCount(kvs: seq<KeyValue>, k: string, v: string)
    ensures multiset(Values(kvs, k))[v] == multiset(kvs)[KeyValue(k, v)]
  {
    if kvs != [] {
      var n := |kvs| - 1;
      assert kvs == kvs[..n] + [kvs[n]];
      ValuesCount(kvs[..n], k, v);
    }
  }

  lemma ValuesMultiset(a: seq<KeyValue>, b: seq<KeyValue>, k: string)
    requires multiset(a) == multiset(b)
    ensures multiset(Values(a, k)) == multiset(Values(b, k))
    ensures HasKey(a, k) <==> HasKey(b, k)
  {
    forall v ensures multiset(Values(a, k))[v] == multiset(Values(b, k))[v] {
      ValuesCount(a, k, v);
      ValuesCount(b, k, v);
    }
    forall x ensures x in a <==> x in b {
      assert x in a <==> x in multiset(a);
    }
    if HasKey(a, k) {
      var i :| 0 <= i < |a| && a[i].key == k;
      assert a[i] in b;
    }
    if HasKey(b, k) {
      var i :| 0 <= i < |b| && b[i].key == k;
      assert b[i] in a;
    }
  }

  lemma OutputOfSame(a: seq<KeyValue>, b: seq<KeyValue>, reducef: ReduceF, lines: seq<Line>)
    requires multiset(a) == multiset(b) && IsOutput(a, reducef, lines)
    ensures IsOutput(b, reducef, lines)
  {
    hide Strings.Less, Values, HasKey;
    forall k ensures HasKey(a, k) <==> HasKey(b, k) {
      ValuesMultiset(a, b, k);
    }
    forall i | 0 <= i < |lines| ensures Reduces(b, reducef, lines[i]) {
      ValuesMultiset(a, b, lines[i].key);
      assert Reduces(a, reducef, lines[i]);
    }
  }

  // ---------- the sequential program ----------

  /** The pairs of the first files come first; those of one file are what the map function emits. */
  lemma {:induction false} MapAllSplit(a: seq<File>, b: seq<File>, mapf: MapF)
    ensures MapAll(a + b, mapf) == MapAll(a, mapf) + MapAll(b, mapf)
    ensures |a| == 1 ==> MapAll(a, mapf) == mapf(a[0].name, a[0].content)
  {
    if b == [] {
      assert a + b == a;
    } else {
      var k := |b| - 1;
      assert (a + b)[..|a + b| - 1] == a + b[..k];
      MapAllSplit(a, b[..k], mapf);
    }
    if |a| == 1 {
      assert MapAll(a[..0], mapf) == [];
    }
  }

  /** Applies the map function to each file and accumulates what it emits. */
  method MapFiles(files: seq<File>, mapf: MapF) returns (kvs: seq<KeyValue>)
    ensures kvs == MapAll(files, mapf)
  {
    kvs := [];
    for i := 0 to |files|
      invariant kvs == MapAll(files[..i], mapf)
    {
      assert files[..i + 1][..i] == files[..i];
      kvs := kvs + mapf(files[i].name, files[i].content);
    }
    assert files[..|files|] == files;
  }

  method Sequential(files: seq<File>, mapf: MapF, reducef: ReduceF) returns (lines: seq<Line>)
    ensures IsOutput(MapAll(files, mapf), reducef, lines)
  {
    var intermediate := MapFiles(files, mapf);
    hide IsOutput;
    var sorted := SortByKey(intermediate);
    lines := Group(sorted, reducef);
    OutputOfSame(sorted, intermediate, reducef, lines);
  }

  // ---------- map tasks ----------

  /** What a map task writes: file r has the pairs of bucket r. */
  ghost predicate IsMapOutput(kvs: seq<KeyValue>, hash: HashF, n: nat, out: seq<seq<KeyValue>>)
    requires n > 0
  {
    |out| == n && forall r :: 0 <= r < n ==> multiset(out[r]) == multiset(Bucket(kvs, hash, n, r))
  }

  /** The buckets of the pairs so far; a bucket without pairs has no entry. */
  ghost predicate Bulked(kvs: seq<KeyValue>, hash: HashF, n: nat, bulks: map<int, seq<KeyValue>>)
    requires n > 0
  {
    forall r :: Of(bulks, r) == Bucket(kvs, hash, n, r)
  }

  function Of(bulks: map<int, seq<KeyValue>>, r: int): seq<KeyValue>
  {
    if r in bulks then bulks[r] else []
  }

  method DoMap(files: seq<File>, n: nat, mapf: MapF, hash: HashF) returns (out: seq<seq<KeyValue>>)
    requires n > 0
    ensures IsMapOutput(MapAll(files, mapf), hash, n, out)
    ensures forall r :: 0 <= r < n ==> KeySorted(out[r])
  {
    hide KeySorted, Bucket, MapAll;
    var kvs := MapFiles(files, mapf);
    var bulks := Split(kvs, n, hash);
    var sorted := SortBulks(bulks);
    out := WriteBulks(sorted, n);
  }

  method WriteBulks(bulks: map<int, seq<KeyValue>>, n: nat) returns (out: seq<seq<KeyValue>>)
    ensures |out| == n && forall r :: 0 <= r < n ==> out[r] == Of(bulks, r)
  {
    out := [];
    for r := 0 to n
      invariant |out| == r && forall x :: 0 <= x < r ==> out[x] == Of(bulks, x)
    {
      out := out + [if r in bulks then bulks[r] else []];
    }
  }

  method Split(kvs: seq<KeyValue>, n: nat, hash: HashF) returns (bulks: map<int, seq<KeyValue>>)
    requires n > 0
    ensures Bulked(kvs, hash, n, bulks)
  {
    bulks := map[];
    for i := 0 to |kvs|
      invariant forall r :: Of(bulks, r) == Bucket(kvs[..i], hash, n, r)
    {
      var value := kvs[i];
      var r := hash(value.key) % n;
      ghost var was := bulks;
      if r in bulks {
        bulks := bulks[r := bulks[r] + [value]];
      } else {
        bulks := bulks[r := [value]];
      }
      assert kvs[..i + 1][..i] == kvs[..i];
      forall x ensures Of(bulks, x) == Bucket(kvs[..i + 1], hash, n, x) {
        assert Of(bulks, x) == Of(was, x) + if x == r then [value] else [];
      }
    }
    assert kvs[..|kvs|] == kvs;
  }

  method SortBulks(bulks: map<int, seq<KeyValue>>) returns (m: map<int, seq<KeyValue>>)
    ensures forall r :: multiset(Of(m, r)) == multiset(Of(bulks, r)) && KeySorted(Of(m, r))
  {
    m := bulks;
    var keys := Collections.KeysOf(bulks);
    for i := 0 to |keys|
      invariant m.Keys == bulks.Keys
      invariant forall r :: r in m ==> multiset(m[r]) == multiset(bulks[r])
      invariant forall x :: 0 <= x < i ==> keys[x] in m && KeySorted(m[keys[x]])
    {
      hide KeySorted;
      assert keys[i] in keys;
      var sorted := SortByKey(m[keys[i]]);
      m := m[keys[i] := sorted];
    }
    forall r ensures multiset(Of(m, r)) == multiset(Of(bulks, r)) && KeySorted(Of(m, r)) {
      if r in m { assert r in keys; }
    }
  }

  // ---------- reduce tasks ----------

  function Concat(files: seq<seq<KeyValue>>): seq<KeyValue>
  {
    if files == [] then [] else Concat(files[..|files| - 1]) + files[|files| - 1]
  }

  method DoReduce(files: seq<seq<KeyValue>>, reducef: ReduceF) returns (lines: seq<Line>)
    ensures IsOutput(Concat(files), reducef, lines)
  {
    var intermediate := [];
    for i := 0 to |files|
      invariant intermediate == Concat(files[..i])
    {
      assert files[..i + 1][..i] == files[..i];
      intermediate := intermediate + files[i];
    }
    assert files[..|files|] == files;
    hide IsOutput;
    var sorted := SortByKey(intermediate);
    lines := Group(sorted, reducef);
    OutputOfSame(sorted, intermediate, reducef, lines);
  }
}
