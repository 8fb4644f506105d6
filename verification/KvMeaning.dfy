/** What the key-value model means to a client: a get returns the last value put, followed by what
    was appended since. Nothing here is defined through the model's step function. */
module KvMeaning {
  import opened Linearizability
  import opened Entries
  import opened Kv

  predicate IsGet(x: KvOp)
  {
    x.input.op == 0
  }

  predicate IsPut(x: KvOp, k: string)
  {
    x.input.op == 1 && x.input.key == k
  }

  predicate IsAppend(x: KvOp, k: string)
  {
    x.input.op != 0 && x.input.op != 1 && x.input.key == k
  }

  /** The place of the last put of k, or -1. */
  function LastPut(s: seq<KvOp>, k: string): (p: int)
    ensures -1 <= p < |s| && (p >= 0 ==> IsPut(s[p], k))
    ensures forall i :: p < i < |s| ==> !IsPut(s[i], k)
  {
    if s == [] then -1
    else if IsPut(s[|s| - 1], k) then |s| - 1
    else LastPut(s[..|s| - 1], k)
  }

  /** The values appended to k from place p on, one after the other. */
  function AppendedFrom(s: seq<KvOp>, p: nat, k: string): string
  {
    if |s| <= p then "" else
      var x := s[|s| - 1];
      AppendedFrom(s[..|s| - 1], p, k) + if IsAppend(x, k) then x.input.value else ""
  }

  /** What a get of k should return after the operations of s. */
  function Expected(s: seq<KvOp>, k: string): string
  {
    var p := LastPut(s, k);
    if p >= 0 then s[p].input.value + AppendedFrom(s, p + 1, k) else AppendedFrom(s, 0, k)
  }

  /** Every get returns what it should. */
  ghost predicate ReadsRight(s: seq<KvOp>)
  {
    forall i :: 0 <= i < |s| && IsGet(s[i]) ==> s[i].output.value == Expected(s[..i], s[i].input.key)
  }

  lemma LastPutSnoc(s: seq<KvOp>, x: KvOp, k: string)
    ensures LastPut(s + [x], k) == if IsPut(x, k) then |s| else LastPut(s, k)
  {
    assert (s + [x])[..|s|] == s;
  }

  lemma AppendedSnoc(s: seq<KvOp>, x: KvOp, p: nat, k: string)
    requires p <= |s|
    ensures AppendedFrom(s + [x], p, k) == AppendedFrom(s, p, k) + if IsAppend(x, k) then x.input.value else ""
  {
    assert (s + [x])[..|s|] == s;
  }

  /** A put sets the value, an append extends it, and nothing else touches it. */
  lemma ExpectedSnoc(s: seq<KvOp>, x: KvOp, k: string)
    ensures Expected(s + [x], k) ==
      if IsPut(x, k) then x.input.value
      else if IsAppend(x, k) then Expected(s, k) + x.input.value
      else Expected(s, k)
  {
    LastPutSnoc(s, x, k);
    var p := LastPut(s, k);
    hide LastPut, AppendedFrom;
    if IsPut(x, k) {
      assert AppendedFrom(s + [x], |s| + 1, k) == "" by { NothingAppended(s + [x], |s| + 1, k); }
    } else if p >= 0 {
      AppendedSnoc(s, x, p + 1, k);
      assert (s + [x])[p] == s[p];
      hide Expected;
      var v, w := s[p].input.value, AppendedFrom(s, p + 1, k);
      assert v + (w + x.input.value) == v + w + x.input.value && v + (w + "") == v + w;
    } else {
      AppendedSnoc(s, x, 0, k);
    }
  }

  lemma NothingAppended(s: seq<KvOp>, p: nat, k: string)
    requires |s| <= p
    ensures AppendedFrom(s, p, k) == ""
  {
  }

  lemma ReadsRightSnoc(s: seq<KvOp>, x: KvOp)
    ensures ReadsRight(s + [x]) <==>
      ReadsRight(s) && (IsGet(x) ==> x.output.value == Expected(s, x.input.key))
  {
    hide Expected;
    var t := s + [x];
    assert t[..|s|] == s && t[|s|] == x;
    forall i | 0 <= i < |s| ensures t[i] == s[i] && t[..i] == s[..i] {
    }
  }

  /** The store holds what is expected of every key. */
  ghost predicate Holds(st: Store, s: seq<KvOp>)
  {
    forall k :: Get(st, k) == Expected(s, k)
  }

  lemma HoldsSnoc(st: Store, s: seq<KvOp>, x: KvOp)
    requires Holds(st, s)
    ensures Holds(StoreModel().step(st, x.input, x.output).1, s + [x])
    ensures StoreModel().step(st, x.input, x.output).0 <==> (IsGet(x) ==> x.output.value == Expected(s, x.input.key))
  {
    var st' := StoreModel().step(st, x.input, x.output).1;
    forall k ensures Get(st', k) == Expected(s + [x], k) {
      ExpectedSnoc(s, x, k);
      assert Get(st, k) == Expected(s, k);
    }
    assert Get(st, x.input.key) == Expected(s, x.input.key);
  }

  /** An order is legal for the store exactly when every get in it returns what it should. */
  lemma {:induction false} LegalMeansReadsRight(s: seq<KvOp>)
    ensures ExecOps(StoreModel(), map[], s).Some? <==> ReadsRight(s)
    ensures ExecOps(StoreModel(), map[], s).Some? ==> Holds(ExecOps(StoreModel(), map[], s).value, s)
    decreases |s|
  {
    if s == [] {
    } else {
      var t, x := s[..|s| - 1], s[|s| - 1];
      assert s == t + [x];
      LegalMeansReadsRight(t);
      ExecOpsSnoc(StoreModel(), map[], t, x);
      ReadsRightSnoc(t, x);
      hide ExecOps, ReadsRight, Holds, Expected, StoreModel;
      if ExecOps(StoreModel(), map[], t).Some? {
        HoldsSnoc(ExecOps(StoreModel(), map[], t).value, t, x);
      }
    }
  }

  /** Some order of the operations respects real time and explains every get. */
  ghost predicate Explained(history: seq<KvOp>)
  {
    exists s: seq<KvOp> :: multiset(s) == multiset(history) && RealTime(s) && ReadsRight(s)
  }

  /** Linearizable for the store means just that. */
  lemma LinearizableMeansExplained(history: seq<KvOp>)
    ensures Linearizable(StoreModel(), history) <==> Explained(history)
  {
    assert StoreModel().init == map[];
    hide ExecOps, ReadsRight, RealTime;
    forall s ensures ExecOps(StoreModel(), StoreModel().init, s).Some? <==> ReadsRight(s) {
      LegalMeansReadsRight(s);
    }
  }
}
