/** The key-value model, its partition by key, and why checking key by key is enough. */
module Kv {
  import Collections
  import opened Linearizability
  import opened Sorting
  import Strings

  /** op: 0 is get, 1 is put, anything else append. */
  datatype KvInput = KvInput(op: int, key: string, value: string)
  datatype KvOutput = KvOutput(value: string)
  type KvOp = Operation<KvInput, KvOutput>

  /** A step of one key's value. */
  function Step(st: string, inp: KvInput, out: KvOutput): (bool, string)
  {
    if inp.op == 0 then (out.value == st, st)
    else if inp.op == 1 then (true, inp.value)
    else (true, st + inp.value)
  }

  /** The model the checker uses: the value of a single key. */
  function KeyModel(): Model<string, KvInput, KvOutput>
  {
    Model("", (st, inp, out) => Step(st, inp, out))
  }

  type Store = map<string, string>

  function Get(st: Store, k: string): string
  {
    if k in st then st[k] else ""
  }

  /** The whole store: each operation steps the value of its own key. */
  function StoreModel(): Model<Store, KvInput, KvOutput>
  {
    Model(map[], (st: Store, inp: KvInput, out: KvOutput) =>
      var (ok, v) := Step(Get(st, inp.key), inp, out);
      (ok, st[inp.key := v]))
  }

  // ---------- the operations of one key ----------

  function OfKey(s: seq<KvOp>, k: string): seq<KvOp>
  {
    if s == [] then [] else
      (if s[0].input.key == k then [s[0]] else []) + OfKey(s[1..], k)
  }

  lemma {:induction false} OfKeySnoc(s: seq<KvOp>, x: KvOp, k: string)
    ensures OfKey(s + [x], k) == OfKey(s, k) + if x.input.key == k then [x] else []
  {
    if s == [] {
      assert s + [x] == [x];
    } else {
      OfKeySnoc(s[1..], x, k);
      var first := if s[0].input.key == k then [s[0]] else [];
      var last := if x.input.key == k then [x] else [];
      assert OfKey(s + [x], k) == first + OfKey(s[1..] + [x], k) by {
        assert (s + [x])[1..] == s[1..] + [x];
      }
      assert OfKey(s, k) == first + OfKey(s[1..], k);
      hide OfKey;
      assert first + (OfKey(s[1..], k) + last) == first + OfKey(s[1..], k) + last;
    }
  }

  lemma {:induction false} OfKeyCount(s: seq<KvOp>, k: string, x: KvOp)
    ensures multiset(OfKey(s, k))[x] == if x.input.key == k then multiset(s)[x] else 0
  {
    if s != [] {
      assert s == [s[0]] + s[1..];
      OfKeyCount(s[1..], k, x);
    }
  }

  lemma OfKeyIn(s: seq<KvOp>, k: string, x: KvOp)
    ensures x in OfKey(s, k) <==> x in s && x.input.key == k
  {
    OfKeyCount(s, k, x);
    assert x in OfKey(s, k) <==> multiset(OfKey(s, k))[x] > 0;
    assert x in s <==> multiset(s)[x] > 0;
  }

  lemma OfKeyMultiset(s: seq<KvOp>, t: seq<KvOp>, k: string)
    requires multiset(s) == multiset(t)
    ensures multiset(OfKey(s, k)) == multiset(OfKey(t, k))
  {
    forall x ensures multiset(OfKey(s, k))[x] == multiset(OfKey(t, k))[x] {
      OfKeyCount(s, k, x);
      OfKeyCount(t, k, x);
    }
  }

  // ---------- Partition ----------

  ghost predicate Grouped(s: seq<KvOp>, m: map<string, seq<KvOp>>)
  {
    && (forall k :: k in m <==> OfKey(s, k) != [])
    && (forall k :: k in m ==> m[k] == OfKey(s, k))
  }

  function AddTo(m: map<string, seq<KvOp>>, v: KvOp): map<string, seq<KvOp>>
  {
    var key := v.input.key;
    m[key := (if key in m then m[key] else []) + [v]]
  }

  lemma GroupedSnoc(s: seq<KvOp>, m: map<string, seq<KvOp>>, v: KvOp)
    requires Grouped(s, m)
    ensures Grouped(s + [v], AddTo(m, v))
  {
    forall k ensures OfKey(s + [v], k) == OfKey(s, k) + if v.input.key == k then [v] else [] {
      OfKeySnoc(s, v, k);
    }
    hide OfKey;
    var m' := AddTo(m, v);
    forall k ensures (k in m' <==> OfKey(s + [v], k) != []) && (k in m' ==> m'[k] == OfKey(s + [v], k)) {
      if k == v.input.key {
        assert k !in m ==> OfKey(s, k) == [];
      }
    }
  }

  method Partition(history: seq<KvOp>) returns (ret: seq<seq<KvOp>>, keys: seq<string>)
    ensures IsPartition(history, ret, keys)
    ensures Sorted(keys, (a, b) => Strings.Less(a, b))
  {
    hide Grouped, OfKey, Sorted, Order;
    var m: map<string, seq<KvOp>> := map[];
    GroupedStart();
    for i := 0 to |history|
      invariant Grouped(history[..i], m)
    {
      GroupedSnoc(history[..i], m, history[i]);
      assert history[..i + 1] == history[..i] + [history[i]];
      m := AddTo(m, history[i]);
    }
    assert history[..|history|] == history;
    GroupedFacts(history, m);
    keys := Collections.KeysOf(m);
    ghost var unsorted := keys;
    Strings.IsOrder();
    keys := Sort(keys, (a, b) => Strings.Less(a, b));
    SortedKeys(unsorted, keys);
    ret := [];
    for i := 0 to |keys|
      invariant |ret| == i && forall j :: 0 <= j < i ==> ret[j] == OfKey(history, keys[j])
    {
      assert keys[i] in keys;
      ret := ret + [m[keys[i]]];
    }
  }

  lemma GroupedStart()
    ensures Grouped([], map[])
  {
  }

  lemma GroupedFacts(s: seq<KvOp>, m: map<string, seq<KvOp>>)
    requires Grouped(s, m)
    ensures forall k :: k in m <==> OfKey(s, k) != []
    ensures forall k :: k in m ==> m[k] == OfKey(s, k)
  {
  }

  /** One part per key that occurs, holding that key's operations in their order. */
  ghost predicate IsPartition(history: seq<KvOp>, parts: seq<seq<KvOp>>, keys: seq<string>)
  {
    && |parts| == |keys|
    && (forall i, j :: 0 <= i < j < |keys| ==> keys[i] != keys[j])
    && (forall i :: 0 <= i < |parts| ==> parts[i] == OfKey(history, keys[i]))
    && (forall k :: k in keys <==> OfKey(history, k) != [])
  }

  lemma SortedKeys(a: seq<string>, b: seq<string>)
    requires multiset(a) == multiset(b) && forall i, j :: 0 <= i < j < |a| ==> a[i] != a[j]
    ensures forall i, j :: 0 <= i < j < |b| ==> b[i] != b[j]
    ensures forall k :: k in b <==> k in a
  {
    forall i, j | 0 <= i < j < |b| ensures b[i] != b[j] {
      Collections.OnceEach(a, b[i]);
      if b[i] == b[j] {
        Collections.TwiceCounts(b, i, j);
      }
    }
    forall k ensures k in b <==> k in a {
      assert k in b <==> k in multiset(b);
    }
  }
}
