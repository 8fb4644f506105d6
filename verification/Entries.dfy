/** From operations or events to the checker's entries: what the order of the entries says
    about real time, and that linearizability is the same before and after. */
module Entries {
  import opened Collections
  import opened Linearizability
  import opened Sorting

  // ---------- operations ----------

  function CallOf<I, O>(ops: seq<Operation<I, O>>, i: int): Entry<I, O>
    requires 0 <= i < |ops|
  {
    Call(ops[i].input, i, ops[i].call, ops[i].clientId)
  }

  function ReturnOf<I, O>(ops: seq<Operation<I, O>>, i: int): Entry<I, O>
    requires 0 <= i < |ops|
  {
    Return(ops[i].output, i, ops[i].ret, ops[i].clientId)
  }

  /** The order of entries: by time and, at the same time, calls before returns. */
  predicate ByTime<I, O>(a: Entry<I, O>, b: Entry<I, O>)
  {
    if a.time != b.time then a.time < b.time else a.Call? && b.Return?
  }

  /** The entries before they are sorted. */
  ghost function Raw<I, O>(ops: seq<Operation<I, O>>): (raw: seq<Entry<I, O>>)
    ensures |raw| == 2 * |ops|
    ensures forall i :: 0 <= i < |ops| ==> raw[2 * i] == CallOf(ops, i)
    ensures forall i :: 0 <= i < |ops| ==> raw[2 * i + 1] == ReturnOf(ops, i)
  {
    if ops == [] then [] else
      var k := |ops| - 1;
      assert forall i :: 0 <= i < k ==> ReturnOf(ops[..k], i) == ReturnOf(ops, i);
      Raw(ops[..k]) + [CallOf(ops, k), ReturnOf(ops, k)]
  }

  /** Some sorted rearrangement of the operations' calls and returns. */
  ghost predicate IsEntries<I, O>(ops: seq<Operation<I, O>>, h: seq<Entry<I, O>>)
  {
    Sorted(h, (a, b) => ByTime(a, b)) && multiset(h) == multiset(Raw(ops))
  }

  lemma ByTimeIsOrder<I(!new), O(!new)>()
    ensures Order<Entry<I, O>>((a, b) => ByTime(a, b))
  {
  }

  method MakeEntries<I(!new), O(!new)>(history: seq<Operation<I, O>>) returns (entries: seq<Entry<I, O>>)
    ensures IsEntries(history, entries)
    ensures WellFormed(entries) <==> Timed(history)
  {
    entries := [];
    var id := 0;
    while id < |history|
      invariant 0 <= id <= |history| && entries == Raw(history[..id])
    {
      entries := entries + [CallOf(history, id)];
      entries := entries + [ReturnOf(history, id)];
      assert history[..id + 1][..id] == history[..id];
      id := id + 1;
    }
    assert history[..id] == history;
    ByTimeIsOrder<I, O>();
    entries := Sort(entries, (a, b) => ByTime(a, b));
    WellFormedIffTimed(history, entries);
  }

  // ---------- any outcome of the sort ----------

  /** The entry of an operation, whole. */
  ghost predicate EntryOf<I, O>(ops: seq<Operation<I, O>>, e: Entry<I, O>)
  {
    0 <= e.id < |ops| && e == if e.Call? then CallOf(ops, e.id) else ReturnOf(ops, e.id)
  }

  lemma RawOnce<I, O>(ops: seq<Operation<I, O>>)
    ensures forall p :: 0 <= p < |Raw(ops)| ==> EntryOf(ops, Raw(ops)[p])
    ensures forall p, q :: 0 <= p < q < |Raw(ops)| ==> Raw(ops)[p] != Raw(ops)[q]
  {
    var raw := Raw(ops);
    forall p | 0 <= p < |raw| ensures EntryOf(ops, raw[p]) && raw[p].id == p / 2 && (raw[p].Call? <==> p % 2 == 0) {
      assert raw[2 * (p / 2)] == CallOf(ops, p / 2) && raw[2 * (p / 2) + 1] == ReturnOf(ops, p / 2);
    }
  }

  /** Sorting loses, adds and repeats nothing. */
  lemma EntriesOnce<I, O>(ops: seq<Operation<I, O>>, h: seq<Entry<I, O>>)
    requires IsEntries(ops, h)
    ensures |h| == 2 * |ops|
    ensures forall p :: 0 <= p < |h| ==> EntryOf(ops, h[p])
    ensures forall i :: 0 <= i < |ops| ==> CallOf(ops, i) in h && ReturnOf(ops, i) in h
    ensures forall p, q :: 0 <= p < q < |h| ==> h[p] != h[q]
  {
    var raw := Raw(ops);
    SameSize(h, raw);
    RawOnce(ops);
    forall p | 0 <= p < |h| ensures EntryOf(ops, h[p]) {
      assert h[p] in multiset(h);
      assert h[p] in raw;
    }
    forall i | 0 <= i < |ops| ensures CallOf(ops, i) in h && ReturnOf(ops, i) in h {
      assert raw[2 * i] in multiset(raw) && raw[2 * i + 1] in multiset(raw);
    }
    forall p, q | 0 <= p < q < |h| ensures h[p] != h[q] {
      OnceEach(raw, h[p]);
      if h[p] == h[q] {
        TwiceCounts(h, p, q);
        assert false;
      }
    }
  }

  lemma SortedBefore<I, O>(h: seq<Entry<I, O>>, p: int, q: int)
    requires Sorted(h, (a, b) => ByTime(a, b)) && 0 <= p < |h| && 0 <= q < |h| && ByTime(h[p], h[q])
    ensures p < q
  {
    var less := (a: Entry<I, O>, b: Entry<I, O>) => ByTime(a, b);
    var x, y := h[p], h[q];
    assert less(x, y) && !less(x, x);
  }

  lemma EntriesWellFormed<I, O>(ops: seq<Operation<I, O>>, h: seq<Entry<I, O>>)
    requires IsEntries(ops, h) && Timed(ops)
    ensures WellFormed(h) && |h| / 2 == |ops|
  {
    EntriesOnce(ops, h);
    forall id | 0 <= id < |h| / 2 ensures Paired(h, id) {
      var c :| 0 <= c < |h| && h[c] == CallOf(ops, id);
      var r :| 0 <= r < |h| && h[r] == ReturnOf(ops, id);
      SortedBefore(h, c, r);
      assert IsCall(h, c, id) && IsReturn(h, r, id);
    }
    forall id, p, q | IsCall(h, p, id) && IsCall(h, q, id) ensures p == q {
      assert EntryOf(ops, h[p]) && EntryOf(ops, h[q]);
    }
    forall id, p, q | IsReturn(h, p, id) && IsReturn(h, q, id) ensures p == q {
      assert EntryOf(ops, h[p]) && EntryOf(ops, h[q]);
    }
  }

  /** The entries are well-formed exactly when nothing returns before it is called. */
  lemma WellFormedIffTimed<I, O>(ops: seq<Operation<I, O>>, h: seq<Entry<I, O>>)
    requires IsEntries(ops, h)
    ensures WellFormed(h) <==> Timed(ops)
  {
    if Timed(ops) {
      EntriesWellFormed(ops, h);
    }
    if WellFormed(h) {
      EntriesOnce(ops, h);
      forall i | 0 <= i < |ops| ensures ops[i].call <= ops[i].ret {
        var c, r := CallPos(h, i), ReturnPos(h, i);
        assert EntryOf(ops, h[c]) && EntryOf(ops, h[r]);
        var less := (a: Entry<I, O>, b: Entry<I, O>) => ByTime(a, b);
        assert !less(h[r], h[c]);
      }
    }
  }

  /** Whatever the sort made of ties: a returns before b is called in the list exactly when it
      did in time, every call precedes its return, and ids are dense. */
  lemma EntryOrderIsRealTime<I, O>(ops: seq<Operation<I, O>>, h: seq<Entry<I, O>>, a: int, b: int)
    requires IsEntries(ops, h) && Timed(ops) && 0 <= a < |ops| && 0 <= b < |ops|
    ensures WellFormed(h) && |h| / 2 == |ops|
    ensures h[CallPos(h, a)].input == ops[a].input && h[ReturnPos(h, a)].output == ops[a].output
    ensures h[CallPos(h, a)].time == ops[a].call && h[ReturnPos(h, a)].time == ops[a].ret
    ensures h[CallPos(h, a)].clientId == h[ReturnPos(h, a)].clientId == ops[a].clientId
    ensures Precedes(h, a, b) <==> ops[a].ret < ops[b].call
  {
    EntriesWellFormed(ops, h);
    EntriesOnce(ops, h);
    var r, c := ReturnPos(h, a), CallPos(h, b);
    assert EntryOf(ops, h[r]) && EntryOf(ops, h[c]) && EntryOf(ops, h[CallPos(h, a)]);
    if ops[a].ret < ops[b].call {
      SortedBefore(h, r, c);
    } else {
      SortedBefore(h, c, r);
    }
  }

  // ---------- linearizability is the same for both ----------

  lemma {:induction false} ExecOpsSnoc<S, I, O>(m: Model<S, I, O>, st: S, s: seq<Operation<I, O>>, x: Operation<I, O>)
    ensures ExecOps(m, st, s + [x]) ==
      match ExecOps(m, st, s)
      case None => None
      case Some(mid) =>
        var (ok, next) := m.step(mid, x.input, x.output);
        if ok then Some(next) else None
  {
    if s == [] {
      assert s + [x] == [x];
      var (ok, next) := m.step(st, x.input, x.output);
      assert ok ==> ExecOps(m, next, [x][1..]) == Some(next);
    } else {
      var (ok, next) := m.step(st, s[0].input, s[0].output);
      assert (s + [x])[1..] == s[1..] + [x] && (s + [x])[0] == s[0];
      if ok {
        ExecOpsSnoc(m, next, s[1..], x);
      }
    }
  }

  /** The operations named by ids, in that order. */
  ghost function Pick<I, O>(ops: seq<Operation<I, O>>, ids: seq<int>): (r: seq<Operation<I, O>>)
    requires forall i :: 0 <= i < |ids| ==> 0 <= ids[i] < |ops|
    ensures |r| == |ids| && forall i :: 0 <= i < |ids| ==> r[i] == ops[ids[i]]
  {
    seq(|ids|, i requires 0 <= i < |ids| => ops[ids[i]])
  }

  lemma {:induction false} SameExec<S, I, O>(m: Model<S, I, O>, ops: seq<Operation<I, O>>, h: seq<Entry<I, O>>, ids: seq<int>)
    requires IsEntries(ops, h) && Timed(ops) && WellFormed(h) && |h| / 2 == |ops| && ValidIds(h, ids)
    requires forall i :: 0 <= i < |ids| ==> 0 <= ids[i] < |ops|
    ensures Exec(m, h, ids) == ExecOps(m, m.init, Pick(ops, ids))
    decreases |ids|
  {
    if ids != [] {
      var k := |ids| - 1;
      assert Pick(ops, ids) == Pick(ops, ids[..k]) + [ops[ids[k]]];
      ExecOpsSnoc(m, m.init, Pick(ops, ids[..k]), ops[ids[k]]);
      SameExec(m, ops, h, ids[..k]);
      EntryOrderIsRealTime(ops, h, ids[k], ids[k]);
    }
  }

  function Without<T>(s: seq<T>, k: int): seq<T>
    requires 0 <= k < |s|
  {
    s[..k] + s[k + 1..]
  }

  lemma WithoutMultiset<T>(s: seq<T>, k: int)
    requires 0 <= k < |s|
    ensures multiset(s) == multiset(Without(s, k)) + multiset{s[k]}
  {
    assert s == s[..k] + [s[k]] + s[k + 1..];
  }

  lemma CancelOne<T>(a: multiset<T>, b: multiset<T>, x: T)
    requires a + multiset{x} == b + multiset{x}
    ensures a == b
  {
    assert a == (a + multiset{x}) - multiset{x};
    assert b == (b + multiset{x}) - multiset{x};
  }

  /** Picking each operation once rearranges them. */
  lemma {:induction false} PickAll<I, O>(ops: seq<Operation<I, O>>, ids: seq<int>)
    requires Distinct(ids) && |ids| == |ops| && forall i :: 0 <= i < |ids| ==> 0 <= ids[i] < |ops|
    ensures multiset(Pick(ops, ids)) == multiset(ops)
    decreases |ops|
  {
    if ids != [] {
      var n := |ids| - 1;
      var k := ids[n];
      var rest := seq(n, i requires 0 <= i < n => if ids[i] < k then ids[i] else ids[i] - 1);
      assert forall i :: 0 <= i < n ==> ids[i] != k;
      assert Pick(ops, ids) == Pick(Without(ops, k), rest) + [ops[k]];
      PickAll(Without(ops, k), rest);
      WithoutMultiset(ops, k);
    }
  }

  lemma SameSize<T>(a: seq<T>, b: seq<T>)
    requires multiset(a) == multiset(b)
    ensures |a| == |b|
  {
    assert |multiset(a)| == |multiset(b)|;
  }

  /** Some occurrence of the last operation of s, and what is left without it. */
  lemma TakeLast<T>(ops: seq<T>, s: seq<T>) returns (k: int)
    requires multiset(s) == multiset(ops) && s != []
    ensures 0 <= k < |ops| && ops[k] == s[|s| - 1]
    ensures multiset(s[..|s| - 1]) == multiset(Without(ops, k))
  {
    var n := |s| - 1;
    assert s == s[..n] + [s[n]];
    assert s[n] in multiset(ops);
    k :| 0 <= k < |ops| && ops[k] == s[n];
    WithoutMultiset(ops, k);
    CancelOne(multiset(s[..n]), multiset(Without(ops, k)), s[n]);
  }

  lemma PutLast<I, O>(ops: seq<Operation<I, O>>, k: int, rest: seq<int>) returns (ids: seq<int>)
    requires 0 <= k < |ops| && Distinct(rest) && |rest| == |ops| - 1
    requires forall i :: 0 <= i < |rest| ==> 0 <= rest[i] < |ops| - 1
    ensures |ids| == |ops| && Distinct(ids) && (forall i :: 0 <= i < |ids| ==> 0 <= ids[i] < |ops|)
    ensures Pick(ops, ids) == Pick(Without(ops, k), rest) + [ops[k]]
  {
    ids := seq(|rest|, i requires 0 <= i < |rest| => if rest[i] < k then rest[i] else rest[i] + 1) + [k];
  }

  /** A rearrangement picks each operation once. */
  lemma {:induction false} IdsOf<I, O>(ops: seq<Operation<I, O>>, s: seq<Operation<I, O>>) returns (ids: seq<int>)
    requires multiset(s) == multiset(ops)
    ensures |ids| == |ops| && Distinct(ids) && (forall i :: 0 <= i < |ids| ==> 0 <= ids[i] < |ops|)
    ensures Pick(ops, ids) == s
    decreases |s|
  {
    SameSize(s, ops);
    if s == [] {
      ids := [];
    } else {
      var k := TakeLast(ops, s);
      var rest := IdsOf(Without(ops, k), s[..|s| - 1]);
      ids := PutLast(ops, k, rest);
      assert s == s[..|s| - 1] + [s[|s| - 1]];
    }
  }

  lemma EntriesToOps<S, I(!new), O(!new)>(m: Model<S, I, O>, ops: seq<Operation<I, O>>, h: seq<Entry<I, O>>, ids: seq<int>)
    requires IsEntries(ops, h) && Timed(ops) && WellFormed(h) && |h| / 2 == |ops| && IsLinearization(m, h, ids)
    ensures Linearizable(m, ops)
  {
    var s := Pick(ops, ids);
    PickAll(ops, ids);
    SameExec(m, ops, h, ids);
    forall i, j | 0 <= i < j < |s| ensures !(s[j].ret < s[i].call) {
      EntryOrderIsRealTime(ops, h, ids[j], ids[i]);
      assert !Precedes(h, ids[j], ids[i]);
    }
    assert RealTime(s);
  }

  lemma OpsToEntries<S, I, O>(m: Model<S, I, O>, ops: seq<Operation<I, O>>, h: seq<Entry<I, O>>, s: seq<Operation<I, O>>)
    requires IsEntries(ops, h) && Timed(ops) && WellFormed(h) && |h| / 2 == |ops|
    requires multiset(s) == multiset(ops) && ExecOps(m, m.init, s).Some? && RealTime(s)
    ensures LinearizableEntries(m, h)
  {
    var ids := IdsOf(ops, s);
    assert ValidIds(h, ids);
    SameExec(m, ops, h, ids);
    forall i, j | 0 <= i < j < |ids| ensures !Precedes(h, ids[j], ids[i]) {
      EntryOrderIsRealTime(ops, h, ids[j], ids[i]);
      assert !(s[j].ret < s[i].call);
    }
    assert IsLinearization(m, h, ids);
  }

  /** The checker's entries are linearizable exactly when the operations are. */
  lemma SameLinearizable<S, I(!new), O(!new)>(m: Model<S, I, O>, ops: seq<Operation<I, O>>, h: seq<Entry<I, O>>)
    requires IsEntries(ops, h) && Timed(ops)
    ensures WellFormed(h)
    ensures LinearizableEntries(m, h) <==> Linearizable(m, ops)
  {
    EntriesWellFormed(ops, h);
    if LinearizableEntries(m, h) {
      var ids :| IsLinearization(m, h, ids);
      EntriesToOps(m, ops, h, ids);
    }
    if Linearizable(m, ops) {
      var s: seq<Operation<I, O>> :| multiset(s) == multiset(ops) && ExecOps(m, m.init, s).Some? && RealTime(s);
      OpsToEntries(m, ops, h, s);
    }
  }
}
