/** Locality: a key-value history is linearizable for the whole store exactly when the
    operations of each key are linearizable on their own. */
module Locality {
  import opened Linearizability
  import opened Kv

  // ---------- legality, key by key ----------

  ghost predicate LegalKey(st: Store, s: seq<KvOp>, k: string)
  {
    ExecOps(KeyModel(), Get(st, k), OfKey(s, k)).Some?
  }

  /** An order is legal for the store exactly when each key's part of it is legal. */
  lemma {:induction false} LegalByKey(st: Store, s: seq<KvOp>)
    ensures ExecOps(StoreModel(), st, s).Some? <==> forall k :: LegalKey(st, s, k)
    decreases |s|
  {
    if s == [] {
    } else {
      var k0 := s[0].input.key;
      var (ok, v) := Step(Get(st, k0), s[0].input, s[0].output);
      var next := st[k0 := v];
      LegalByKey(next, s[1..]);
      forall k ensures LegalKey(st, s, k) <==> (k == k0 ==> ok) && (ok || k != k0 ==> LegalKey(next, s[1..], k)) {
        LegalStep(st, s, k);
      }
      if ok {
      } else {
        assert !LegalKey(st, s, k0);
      }
    }
  }

  lemma LegalStep(st: Store, s: seq<KvOp>, k: string)
    requires s != []
    ensures var k0 := s[0].input.key;
            var (ok, v) := Step(Get(st, k0), s[0].input, s[0].output);
            LegalKey(st, s, k) <==>
              (k == k0 ==> ok) && (ok || k != k0 ==> LegalKey(st[k0 := v], s[1..], k))
  {
    if s[0].input.key == k {
      assert OfKey(s, k)[0] == s[0] && OfKey(s, k)[1..] == OfKey(s[1..], k);
    } else {
      assert OfKey(s, k) == OfKey(s[1..], k);
    }
  }

  // ---------- real time, key by key ----------

  /** A part of an order that respects real time respects it too. */
  lemma {:induction false} RealTimeOfKey(s: seq<KvOp>, k: string)
    requires RealTime(s)
    ensures RealTime(OfKey(s, k))
  {
    if s != [] {
      assert RealTime(s[1..]);
      RealTimeOfKey(s[1..], k);
      var t := OfKey(s[1..], k);
      if s[0].input.key == k {
        forall j | 0 <= j < |t| ensures !(t[j].ret < s[0].call) {
          OfKeyIn(s[1..], k, t[j]);
          var i :| 0 <= i < |s[1..]| && s[1..][i] == t[j];
          assert s[i + 1] == t[j];
        }
      }
    }
  }

  /** One direction: restrict the order to a key. */
  lemma StoreToKey(ops: seq<KvOp>, k: string)
    requires Linearizable(StoreModel(), ops)
    ensures Linearizable(KeyModel(), OfKey(ops, k))
  {
    var s: seq<KvOp> :| multiset(s) == multiset(ops) && ExecOps(StoreModel(), StoreModel().init, s).Some? && RealTime(s);
    OfKeyMultiset(s, ops, k);
    RealTimeOfKey(s, k);
    LegalByKey(map[], s);
    assert LegalKey(map[], s, k);
  }

  // ---------- merging orders of different keys ----------

  /** Orders of different keys, each respecting real time. */
  ghost predicate Parts(parts: seq<seq<KvOp>>, keys: seq<string>)
  {
    && |parts| == |keys|
    && (forall i, j :: 0 <= i < j < |keys| ==> keys[i] != keys[j])
    && (forall i :: 0 <= i < |parts| ==> RealTime(parts[i]) && Timed(parts[i]) && KeyOnly(parts[i], keys[i]))
  }

  ghost predicate KeyOnly(s: seq<KvOp>, k: string)
  {
    forall i :: 0 <= i < |s| ==> s[i].input.key == k
  }

  function Total(parts: seq<seq<KvOp>>): nat
  {
    if parts == [] then 0 else |parts[0]| + Total(parts[1..])
  }

  lemma {:induction false} TotalUpdate(parts: seq<seq<KvOp>>, i: int, t: seq<KvOp>)
    requires 0 <= i < |parts|
    ensures Total(parts[i := t]) == Total(parts) - |parts[i]| + |t|
  {
    if i == 0 {
      assert parts[i := t][1..] == parts[1..];
    } else {
      assert parts[i := t][1..] == parts[1..][i - 1 := t];
      TotalUpdate(parts[1..], i - 1, t);
    }
  }

  /** A part with an operation whose return is earliest of all. */
  lemma {:induction false} EarliestReturn(parts: seq<seq<KvOp>>) returns (i: int, j: int)
    requires exists p :: 0 <= p < |parts| && parts[p] != []
    ensures 0 <= i < |parts| && 0 <= j < |parts[i]|
    ensures forall p, q :: 0 <= p < |parts| && 0 <= q < |parts[p]| ==> parts[i][j].ret <= parts[p][q].ret
    decreases |parts|
  {
    var n := |parts| - 1;
    if parts[n] == [] {
      i, j := EarliestReturn(parts[..n]);
    } else {
      j := EarliestIn(parts[n]);
      i := n;
      if p :| 0 <= p < n && parts[p] != [] {
        assert parts[..n][p] != [];
        var i', j' := EarliestReturn(parts[..n]);
        if parts[i'][j'].ret < parts[n][j].ret {
          i, j := i', j';
        }
        forall p, q | 0 <= p < |parts| && 0 <= q < |parts[p]| ensures parts[i][j].ret <= parts[p][q].ret {
          if p < n { assert parts[..n][p][q] == parts[p][q]; }
        }
      }
    }
  }

  lemma {:induction false} EarliestIn(s: seq<KvOp>) returns (j: int)
    requires s != []
    ensures 0 <= j < |s| && forall q :: 0 <= q < |s| ==> s[j].ret <= s[q].ret
    decreases |s|
  {
    var n := |s| - 1;
    j := n;
    if n > 0 {
      var j' := EarliestIn(s[..n]);
      assert forall q :: 0 <= q < n ==> s[..n][j'].ret <= s[..n][q].ret;
      if s[j'].ret < s[n].ret { j := j'; }
    }
  }

  ghost predicate Merges(s: seq<KvOp>, parts: seq<seq<KvOp>>, keys: seq<string>)
    requires |parts| == |keys|
  {
    && RealTime(s)
    && (forall i :: 0 <= i < |parts| ==> OfKey(s, keys[i]) == parts[i])
    && (forall j :: 0 <= j < |s| ==> s[j].input.key in keys)
  }

  /** Orders of different keys can be merged into one that respects real time: the first
      operation of the part with the earliest return of all may always go first. */
  lemma {:induction false} Merge(parts: seq<seq<KvOp>>, keys: seq<string>) returns (s: seq<KvOp>)
    requires Parts(parts, keys)
    ensures Merges(s, parts, keys)
    decreases Total(parts)
  {
    if forall p :: 0 <= p < |parts| ==> parts[p] == [] {
      s := [];
    } else {
      var i, j := EarliestReturn(parts);
      var b, rest := parts[i][0], parts[i := parts[i][1..]];
      assert b.call <= parts[i][j].ret;
      DropFirst(parts, keys, i);
      TotalUpdate(parts, i, parts[i][1..]);
      var t := Merge(rest, keys);
      s := [b] + t;
      MergeFirst(parts, keys, i, t);
    }
  }

  lemma DropFirst(parts: seq<seq<KvOp>>, keys: seq<string>, i: int)
    requires Parts(parts, keys) && 0 <= i < |parts| && parts[i] != []
    ensures Parts(parts[i := parts[i][1..]], keys)
  {
    assert RealTime(parts[i][1..]) && Timed(parts[i][1..]) && KeyOnly(parts[i][1..], keys[i]);
  }

  lemma MergeFirst(parts: seq<seq<KvOp>>, keys: seq<string>, i: int, t: seq<KvOp>)
    requires Parts(parts, keys) && 0 <= i < |parts| && parts[i] != []
    requires Merges(t, parts[i := parts[i][1..]], keys)
    requires forall p, q :: 0 <= p < |parts| && 0 <= q < |parts[p]| ==> parts[i][0].call <= parts[p][q].ret
    ensures Merges([parts[i][0]] + t, parts, keys)
  {
    var b := parts[i][0];
    var s := [b] + t;
    assert s[1..] == t && s[0] == b;
    forall p | 0 <= p < |parts| ensures OfKey(s, keys[p]) == parts[p] {
      FirstOfKey(parts, keys, i, t, p);
    }
    forall x | 0 <= x < |t| ensures !(t[x].ret < b.call) {
      FirstIsEarly(parts, keys, i, t, x);
    }
    hide OfKey;
    assert RealTime(s);
  }

  lemma FirstOfKey(parts: seq<seq<KvOp>>, keys: seq<string>, i: int, t: seq<KvOp>, p: int)
    requires Parts(parts, keys) && 0 <= i < |parts| && parts[i] != [] && 0 <= p < |parts|
    requires Merges(t, parts[i := parts[i][1..]], keys)
    ensures OfKey([parts[i][0]] + t, keys[p]) == parts[p]
  {
    var b := parts[i][0];
    assert ([b] + t)[1..] == t;
    assert OfKey(t, keys[p]) == parts[i := parts[i][1..]][p];
    assert KeyOnly(parts[i], keys[i]) && b.input.key == keys[i];
    if p == i { assert parts[i] == [b] + parts[i][1..]; }
  }

  lemma FirstIsEarly(parts: seq<seq<KvOp>>, keys: seq<string>, i: int, t: seq<KvOp>, x: int)
    requires |parts| == |keys| && 0 <= i < |parts| && parts[i] != [] && 0 <= x < |t|
    requires Merges(t, parts[i := parts[i][1..]], keys)
    requires forall p, q :: 0 <= p < |parts| && 0 <= q < |parts[p]| ==> parts[i][0].call <= parts[p][q].ret
    ensures !(t[x].ret < parts[i][0].call)
  {
    hide Merges;
    var rest := parts[i := parts[i][1..]];
    InSomePart(rest, keys, t, x);
    var p, q :| 0 <= p < |rest| && 0 <= q < |rest[p]| && rest[p][q] == t[x];
    assert t[x] == parts[p][if p == i then q + 1 else q];
  }

  lemma InSomePart(parts: seq<seq<KvOp>>, keys: seq<string>, t: seq<KvOp>, x: int)
    requires |parts| == |keys| && Merges(t, parts, keys) && 0 <= x < |t|
    ensures exists p, q :: 0 <= p < |parts| && 0 <= q < |parts[p]| && parts[p][q] == t[x]
  {
    var p :| 0 <= p < |keys| && keys[p] == t[x].input.key;
    OfKeyIn(t, keys[p], t[x]);
    assert t[x] in parts[p];
  }

  // ---------- the theorem ----------

  lemma MergedMultiset(ops: seq<KvOp>, s: seq<KvOp>, parts: seq<seq<KvOp>>, keys: seq<string>)
    requires |parts| == |keys| && Merges(s, parts, keys)
    requires forall i :: 0 <= i < |parts| ==> multiset(parts[i]) == multiset(OfKey(ops, keys[i]))
    requires forall k :: OfKey(ops, k) != [] ==> k in keys
    ensures multiset(s) == multiset(ops)
  {
    forall x ensures multiset(s)[x] == multiset(ops)[x] {
      var k := x.input.key;
      OfKeyCount(s, k, x);
      OfKeyCount(ops, k, x);
      if k in keys {
        var i :| 0 <= i < |keys| && keys[i] == k;
        assert multiset(OfKey(s, k)) == multiset(OfKey(ops, k));
      } else {
        assert OfKey(ops, k) == [];
        OfKeyIn(s, k, x);
        assert x !in s;
      }
    }
  }

  ghost predicate IsLin(s: seq<KvOp>, ops: seq<KvOp>)
  {
    multiset(s) == multiset(ops) && ExecOps(KeyModel(), "", s).Some? && RealTime(s)
  }

  lemma KeyWitness(ops: seq<KvOp>) returns (s: seq<KvOp>)
    requires Linearizable(KeyModel(), ops)
    ensures IsLin(s, ops)
  {
    s :| multiset(s) == multiset(ops) && ExecOps(KeyModel(), KeyModel().init, s).Some? && RealTime(s);
  }

  /** One linearization for each part. */
  lemma {:induction false} Witnesses(parts: seq<seq<KvOp>>) returns (ss: seq<seq<KvOp>>)
    requires forall i :: 0 <= i < |parts| ==> Linearizable(KeyModel(), parts[i])
    ensures |ss| == |parts| && forall i :: 0 <= i < |ss| ==> IsLin(ss[i], parts[i])
  {
    if parts == [] {
      ss := [];
    } else {
      var s := KeyWitness(parts[0]);
      var rest := Witnesses(parts[1..]);
      ss := [s] + rest;
    }
  }

  lemma LinKeepsTimedAndKey(s: seq<KvOp>, ops: seq<KvOp>, k: string)
    requires multiset(s) == multiset(OfKey(ops, k)) && Timed(ops)
    ensures Timed(s) && KeyOnly(s, k)
  {
    forall i | 0 <= i < |s| ensures s[i].call <= s[i].ret && s[i].input.key == k {
      assert s[i] in multiset(s);
      OfKeyIn(ops, k, s[i]);
    }
  }

  /** The other direction: merge the orders of the keys. */
  lemma KeysToStore(ops: seq<KvOp>, parts: seq<seq<KvOp>>, keys: seq<string>)
    requires Timed(ops) && IsPartition(ops, parts, keys)
    requires forall i :: 0 <= i < |parts| ==> Linearizable(KeyModel(), parts[i])
    ensures Linearizable(StoreModel(), ops)
  {
    var ss := Witnesses(parts);
    forall i | 0 <= i < |ss| ensures RealTime(ss[i]) && Timed(ss[i]) && KeyOnly(ss[i], keys[i]) {
      assert IsLin(ss[i], parts[i]);
      LinKeepsTimedAndKey(ss[i], ops, keys[i]);
    }
    var s := Merge(ss, keys);
    MergedMultiset(ops, s, ss, keys);
    forall k ensures LegalKey(map[], s, k) {
      if k in keys {
        var i :| 0 <= i < |keys| && keys[i] == k;
        assert IsLin(ss[i], parts[i]) && OfKey(s, k) == ss[i];
      } else {
        NoKey(s, k, keys);
      }
    }
    LegalByKey(map[], s);
  }

  lemma NoKey(s: seq<KvOp>, k: string, keys: seq<string>)
    requires (forall j :: 0 <= j < |s| ==> s[j].input.key in keys) && k !in keys
    ensures OfKey(s, k) == []
  {
    if s != [] { NoKey(s[1..], k, keys); }
  }

  /** Checking the parts is checking the whole. */
  lemma PartitionIsLocal(ops: seq<KvOp>, parts: seq<seq<KvOp>>, keys: seq<string>)
    requires Timed(ops) && IsPartition(ops, parts, keys)
    ensures Linearizable(StoreModel(), ops) <==>
      forall i :: 0 <= i < |parts| ==> Linearizable(KeyModel(), parts[i])
  {
    if Linearizable(StoreModel(), ops) {
      forall i | 0 <= i < |parts| ensures Linearizable(KeyModel(), parts[i]) {
        StoreToKey(ops, keys[i]);
      }
    }
    if forall i :: 0 <= i < |parts| ==> Linearizable(KeyModel(), parts[i]) {
      KeysToStore(ops, parts, keys);
    }
  }
}
