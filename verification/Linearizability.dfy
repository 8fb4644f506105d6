/** What it means for a concurrent history to be linearizable.
    A history is given either as operations with invocation and response times, or as the
    checker's list of call and return entries; both meanings are defined here and nothing
    in this module mentions a search. */
module Linearizability {
  import Collections

  datatype Option<+T> = None | Some(value: T)

  /** The sequential specification. `Step` of the source is a function of state, input and
      output that says whether the step is allowed and gives the next state. */
  datatype Model<!S, !I, !O> = Model(init: S, step: (S, I, O) -> (bool, S))

  /** One completed operation of a client. */
  datatype Operation<I, O> = Operation(clientId: int, input: I, call: int, output: O, ret: int)

  /** An entry of the checker's history: the invocation or the response of operation `id`. */
  datatype Entry<I, O> =
    | Call(input: I, id: int, time: int, clientId: int)
    | Return(output: O, id: int, time: int, clientId: int)

  // ---------- operations ----------

  /** The state after the operations of `s` in order, or None as soon as one is not allowed. */
  ghost function ExecOps<S, I, O>(m: Model<S, I, O>, st: S, s: seq<Operation<I, O>>): Option<S>
  {
    if s == [] then Some(st) else
      var (ok, next) := m.step(st, s[0].input, s[0].output);
      if ok then ExecOps(m, next, s[1..]) else None
  }

  /** No operation is placed before one that returned before it was called. */
  ghost predicate RealTime<I, O>(s: seq<Operation<I, O>>)
  {
    forall i, j :: 0 <= i < j < |s| ==> !(s[j].ret < s[i].call)
  }

  /** Some reordering of the operations is allowed by the model and respects real time. */
  ghost predicate Linearizable<S, I(!new), O(!new)>(m: Model<S, I, O>, ops: seq<Operation<I, O>>)
  {
    exists s: seq<Operation<I, O>> ::
      multiset(s) == multiset(ops) && ExecOps(m, m.init, s).Some? && RealTime(s)
  }

  /** The source's histories: nothing returns before it is called. */
  predicate Timed<I, O>(ops: seq<Operation<I, O>>)
  {
    forall i :: 0 <= i < |ops| ==> ops[i].call <= ops[i].ret
  }

  // ---------- entries ----------

  ghost predicate IsCall<I, O>(h: seq<Entry<I, O>>, p: int, id: int)
  {
    0 <= p < |h| && h[p].Call? && h[p].id == id
  }

  ghost predicate IsReturn<I, O>(h: seq<Entry<I, O>>, p: int, id: int)
  {
    0 <= p < |h| && h[p].Return? && h[p].id == id
  }

  ghost predicate Paired<I, O>(h: seq<Entry<I, O>>, id: int)
  {
    exists c, r :: IsCall(h, c, id) && IsReturn(h, r, id) && c < r
  }

  ghost predicate Unique<I, O>(h: seq<Entry<I, O>>)
  {
    && (forall id, p, q :: IsCall(h, p, id) && IsCall(h, q, id) ==> p == q)
    && (forall id, p, q :: IsReturn(h, p, id) && IsReturn(h, q, id) ==> p == q)
  }

  /** Ids are dense, and each id has exactly one call, followed by exactly one return. */
  ghost predicate WellFormed<I, O>(h: seq<Entry<I, O>>)
  {
    && |h| % 2 == 0
    && (forall p :: 0 <= p < |h| ==> 0 <= h[p].id < |h| / 2)
    && Unique(h)
    && (forall id :: 0 <= id < |h| / 2 ==> Paired(h, id))
  }

  ghost predicate IsId<I, O>(h: seq<Entry<I, O>>, id: int)
  {
    0 <= id < |h| / 2
  }

  ghost function CallPos<I, O>(h: seq<Entry<I, O>>, id: int): (p: int)
    requires WellFormed(h) && IsId(h, id)
    ensures IsCall(h, p, id)
  {
    assert Paired(h, id);
    var p :| IsCall(h, p, id);
    p
  }

  ghost function ReturnPos<I, O>(h: seq<Entry<I, O>>, id: int): (p: int)
    requires WellFormed(h) && IsId(h, id)
    ensures IsReturn(h, p, id)
    ensures CallPos(h, id) < p
  {
    assert Paired(h, id);
    var c, r :| IsCall(h, c, id) && IsReturn(h, r, id) && c < r;
    assert c == CallPos(h, id);
    r
  }

  /** Operation a returned before operation b was called. */
  ghost predicate Precedes<I, O>(h: seq<Entry<I, O>>, a: int, b: int)
    requires WellFormed(h)
  {
    IsId(h, a) && IsId(h, b) && ReturnPos(h, a) < CallPos(h, b)
  }

  ghost predicate ValidIds<I, O>(h: seq<Entry<I, O>>, s: seq<int>)
  {
    forall i :: 0 <= i < |s| ==> IsId(h, s[i])
  }

  ghost predicate Distinct(s: seq<int>)
  {
    forall i, j :: 0 <= i < j < |s| ==> s[i] != s[j]
  }

  ghost function StepOf<S, I, O>(m: Model<S, I, O>, h: seq<Entry<I, O>>, st: S, id: int): (bool, S)
    requires WellFormed(h) && IsId(h, id)
  {
    m.step(st, h[CallPos(h, id)].input, h[ReturnPos(h, id)].output)
  }

  /** The state after the operations with ids `s`, in order, or None if one is not allowed. */
  ghost function Exec<S, I, O>(m: Model<S, I, O>, h: seq<Entry<I, O>>, s: seq<int>): Option<S>
    requires WellFormed(h) && ValidIds(h, s)
  {
    if s == [] then Some(m.init) else
      match Exec(m, h, s[..|s| - 1])
      case None => None
      case Some(st) =>
        var (ok, next) := StepOf(m, h, st, s[|s| - 1]);
        if ok then Some(next) else None
  }

  /** A legal order of some of the operations that is closed under real time: whatever
      returned before an operation was called is placed before it. */
  ghost predicate IsPartial<S, I, O>(m: Model<S, I, O>, h: seq<Entry<I, O>>, s: seq<int>)
    requires WellFormed(h)
  {
    && ValidIds(h, s)
    && Distinct(s)
    && Exec(m, h, s).Some?
    && (forall i, a :: 0 <= i < |s| && Precedes(h, a, s[i]) ==> a in s[..i])
  }

  /** A legal order of all the operations in which nothing is placed before an operation
      that returned before it was called. */
  ghost predicate IsLinearization<S, I, O>(m: Model<S, I, O>, h: seq<Entry<I, O>>, s: seq<int>)
    requires WellFormed(h)
  {
    && ValidIds(h, s)
    && Distinct(s)
    && |s| == |h| / 2
    && Exec(m, h, s).Some?
    && (forall i, j :: 0 <= i < j < |s| ==> !Precedes(h, s[j], s[i]))
  }

  ghost predicate LinearizableEntries<S, I, O>(m: Model<S, I, O>, h: seq<Entry<I, O>>)
    requires WellFormed(h)
  {
    exists s :: IsLinearization(m, h, s)
  }

  // ---------- a complete partial order is a linearization ----------

  function Elements(s: seq<int>): set<int>
  {
    set x | x in s
  }

  lemma {:induction false} DistinctSize(s: seq<int>)
    requires Distinct(s)
    ensures |Elements(s)| == |s|
  {
    if s == [] {
    } else {
      var t := s[..|s| - 1];
      DistinctSize(t);
      assert s == t + [s[|s| - 1]];
      assert Elements(s) == Elements(t) + {s[|s| - 1]};
    }
  }

  /** Distinct ids below n, n of them: every id below n occurs. */
  lemma AllOccur(s: seq<int>, n: nat)
    requires Distinct(s) && |s| == n
    requires forall i :: 0 <= i < |s| ==> 0 <= s[i] < n
    ensures Elements(s) == Collections.Range(n)
    ensures forall x :: 0 <= x < n ==> x in s
  {
    DistinctSize(s);
    Collections.FullRange(Elements(s), n);
    forall x | 0 <= x < n ensures x in s {
      assert x in Elements(s);
    }
  }

  lemma IndexOf(s: seq<int>, n: nat, x: int) returns (j: int)
    requires Distinct(s) && |s| == n
    requires forall i :: 0 <= i < |s| ==> 0 <= s[i] < n
    requires 0 <= x < n
    ensures 0 <= j < n && s[j] == x
  {
    AllOccur(s, n);
    assert x in s;
    j :| 0 <= j < n && s[j] == x;
  }

  /** The order built one candidate at a time is, once complete, a linearization. */
  lemma CompletePartialIsLinearization<S, I, O>(m: Model<S, I, O>, h: seq<Entry<I, O>>, s: seq<int>)
    requires WellFormed(h)
    requires IsPartial(m, h, s) && |s| == |h| / 2
    ensures IsLinearization(m, h, s)
  {
    forall i, j | 0 <= i < j < |s| ensures !Precedes(h, s[j], s[i]) {
      assert s[j] !in s[..i];
    }
  }

  lemma EarlierInLinearization<S, I, O>(m: Model<S, I, O>, h: seq<Entry<I, O>>, s: seq<int>, i: int, a: int)
    requires WellFormed(h)
    requires IsLinearization(m, h, s)
    requires 0 <= i < |s| && Precedes(h, a, s[i])
    ensures a in s[..i]
  {
    var j := IndexOf(s, |h| / 2, a);
    assert s[..i][j] == a;
  }

  /** A linearization can be built one candidate at a time. */
  lemma LinearizationIsPartial<S, I, O>(m: Model<S, I, O>, h: seq<Entry<I, O>>, s: seq<int>)
    requires WellFormed(h)
    requires IsLinearization(m, h, s)
    ensures IsPartial(m, h, s)
  {
    forall i, a | 0 <= i < |s| && Precedes(h, a, s[i]) ensures a in s[..i] {
      EarlierInLinearization(m, h, s, i, a);
    }
  }
}
