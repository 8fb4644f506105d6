/** The checker's depth-first search on plain values: a stack of linearized operations, a
    cursor into the history and the set of configurations seen so far. `Next` is one turn of
    the loop; the lemmas give its invariant, its measure and what each way of stopping means. */
module Search {
  import Collections
  import opened Linearizability

  /** Which operations are linearized, and the state they lead to. */
  datatype Config<S(==)> = Config(done: set<int>, state: S)

  /** `ids` is the stack of linearized operations; states[i] is the state after i of them. */
  datatype Search<S(==)> = Search(
    ids: seq<int>, states: seq<S>, cursor: int, seen: set<Config<S>>, longest: seq<Option<seq<int>>>)
  {
    function State(): S requires states != [] { states[|states| - 1] }
    function Done(): set<int> { Elements(ids) }
  }

  // ---------- one turn of the loop ----------

  predicate Remaining<I, O>(h: seq<Entry<I, O>>, done: set<int>, p: int)
  {
    0 <= p < |h| && h[p].id !in done
  }

  /** The first entry at or after p whose operation is not linearized, or |h|. */
  function NextFrom<I, O>(h: seq<Entry<I, O>>, done: set<int>, p: nat): (q: int)
    requires p <= |h|
    ensures p <= q <= |h| && (q < |h| ==> Remaining(h, done, q))
    ensures forall k :: p <= k < q ==> !Remaining(h, done, k)
    decreases |h| - p
  {
    if p == |h| || Remaining(h, done, p) then p else NextFrom(h, done, p + 1)
  }

  /** The recorded prefixes after backtracking from the stack `ids`. */
  function Record(longest: seq<Option<seq<int>>>, ids: seq<int>): (r: seq<Option<seq<int>>>)
    ensures |r| == |longest|
    ensures forall j :: 0 <= j < |r| ==>
      r[j] == if j in ids && (longest[j].None? || |ids| > |longest[j].value|) then Some(ids) else longest[j]
  {
    seq(|longest|, j requires 0 <= j < |longest| =>
      if j in ids && (longest[j].None? || |ids| > |longest[j].value|) then Some(ids) else longest[j])
  }

  ghost function Start<S, I, O>(m: Model<S, I, O>, h: seq<Entry<I, O>>): Search<S>
    requires WellFormed(h)
  {
    Search([], [m.init], 0, {}, seq(|h| / 2, _ => None))
  }

  ghost predicate Shape<S, I, O>(h: seq<Entry<I, O>>, a: Search<S>)
  {
    && |a.states| == |a.ids| + 1
    && ValidIds(h, a.ids)
    && 0 <= a.cursor < |h|
  }

  /** The loop cannot go on: the cursor is at a return and the stack is empty. */
  ghost predicate Stuck<S, I, O>(h: seq<Entry<I, O>>, a: Search<S>)
    requires Shape(h, a)
  {
    h[a.cursor].Return? && a.ids == []
  }

  ghost function Next<S, I, O>(m: Model<S, I, O>, h: seq<Entry<I, O>>, partials: bool, a: Search<S>): Search<S>
    requires WellFormed(h) && Shape(h, a) && !Stuck(h, a)
  {
    if h[a.cursor].Call? then
      var x := h[a.cursor].id;
      var (ok, state) := StepOf(m, h, a.State(), x);
      var child := Config(a.Done() + {x}, state);
      if ok && child !in a.seen then
        Search(a.ids + [x], a.states + [state], NextFrom(h, child.done, 0), a.seen + {child}, a.longest)
      else
        a.(cursor := NextFrom(h, a.Done(), a.cursor + 1))
    else
      var k := |a.ids| - 1;
      Search(a.ids[..k], a.states[..k + 1],
             NextFrom(h, Elements(a.ids[..k]), CallPos(h, a.ids[k]) + 1),
             a.seen, if partials then Record(a.longest, a.ids) else a.longest)
  }

  // ---------- what the search explores ----------

  /** Everything that returned before x was called is linearized, and x is not. */
  ghost predicate Enabled<I, O>(h: seq<Entry<I, O>>, done: set<int>, x: int)
    requires WellFormed(h)
  {
    IsId(h, x) && x !in done && forall a :: Precedes(h, a, x) ==> a in done
  }

  ghost predicate CanStep<S, I, O>(m: Model<S, I, O>, h: seq<Entry<I, O>>, c: Config<S>, x: int)
    requires WellFormed(h)
  {
    Enabled(h, c.done, x) && StepOf(m, h, c.state, x).0
  }

  ghost function Child<S, I, O>(m: Model<S, I, O>, h: seq<Entry<I, O>>, c: Config<S>, x: int): Config<S>
    requires WellFormed(h) && IsId(h, x)
  {
    Config(c.done + {x}, StepOf(m, h, c.state, x).1)
  }

  /** The configurations reached by k operations; a finite set, whatever the states are. */
  ghost function Level<S, I, O>(m: Model<S, I, O>, h: seq<Entry<I, O>>, k: nat): set<Config<S>>
    requires WellFormed(h)
  {
    if k == 0 then {Config({}, m.init)} else
      set c, x | c in Level(m, h, k - 1) && x in Collections.Range(|h| / 2) && CanStep(m, h, c, x) :: Child(m, h, c, x)
  }

  ghost function Reach<S, I, O>(m: Model<S, I, O>, h: seq<Entry<I, O>>, k: nat): set<Config<S>>
    requires WellFormed(h)
  {
    if k == 0 then Level(m, h, 0) else Reach(m, h, k - 1) + Level(m, h, k)
  }

  /** Each child of c whose call lies before `bound` has been seen. */
  ghost predicate Tried<S, I, O>(m: Model<S, I, O>, h: seq<Entry<I, O>>, c: Config<S>, bound: int, seen: set<Config<S>>)
    requires WellFormed(h)
  {
    forall x :: CanStep(m, h, c, x) && CallPos(h, x) < bound ==> Child(m, h, c, x) in seen
  }

  ghost predicate Recorded<S>(c: Config<S>, longest: seq<Option<seq<int>>>)
  {
    forall j :: j in c.done && 0 <= j < |longest| ==> longest[j].Some? && |longest[j].value| >= |c.done|
  }

  /** All children of c have been seen, and the operations of c have a prefix as long as c. */
  ghost predicate Finished<S, I, O>(m: Model<S, I, O>, h: seq<Entry<I, O>>, partials: bool,
                                    seen: set<Config<S>>, longest: seq<Option<seq<int>>>, c: Config<S>)
    requires WellFormed(h)
  {
    Tried(m, h, c, |h|, seen) && (partials ==> Recorded(c, longest))
  }

  /** The configuration i operations up the stack. */
  ghost function At<S>(ids: seq<int>, states: seq<S>, i: int): Config<S>
    requires 0 <= i < |states| && i <= |ids|
  {
    Config(Elements(ids[..i]), states[i])
  }

  ghost predicate OnStack<S>(ids: seq<int>, states: seq<S>, c: Config<S>)
    requires |states| == |ids| + 1
  {
    exists i :: 1 <= i <= |ids| && c == At(ids, states, i)
  }

  // ---------- the invariant ----------

  /** The stack is a partial order and `states` are the states along it. */
  ghost predicate PathInv<S, I, O>(m: Model<S, I, O>, h: seq<Entry<I, O>>, ids: seq<int>, states: seq<S>)
    requires WellFormed(h)
  {
    && |states| == |ids| + 1
    && IsPartial(m, h, ids)
    && (forall i :: 0 <= i <= |ids| ==> Exec(m, h, ids[..i]) == Some(states[i]))
  }

  /** The cursor is at a remaining entry with no remaining return before it. */
  ghost predicate CursorInv<I, O>(h: seq<Entry<I, O>>, done: set<int>, cursor: int)
  {
    && 0 <= cursor <= |h|
    && (cursor < |h| ==> Remaining(h, done, cursor))
    && (forall p :: 0 <= p < cursor && Remaining(h, done, p) ==> h[p].Call?)
  }

  /** Up the stack, whatever was passed over has been seen, and so has the stack itself. */
  ghost predicate StackInv<S, I, O>(m: Model<S, I, O>, h: seq<Entry<I, O>>, ids: seq<int>, states: seq<S>,
                                    seen: set<Config<S>>)
    requires WellFormed(h) && PathInv(m, h, ids, states)
  {
    && (forall i :: 0 <= i < |ids| ==> Tried(m, h, At(ids, states, i), CallPos(h, ids[i]), seen))
    && (forall i :: 1 <= i <= |ids| ==> At(ids, states, i) in seen)
  }

  /** What has been seen is on the stack or finished, can be reached, and is not complete. */
  ghost predicate SeenInv<S, I, O>(m: Model<S, I, O>, h: seq<Entry<I, O>>, partials: bool, ids: seq<int>, states: seq<S>,
                                   seen: set<Config<S>>, longest: seq<Option<seq<int>>>)
    requires WellFormed(h) && |states| == |ids| + 1
  {
    && (forall c :: c in seen ==> OnStack(ids, states, c) || Finished(m, h, partials, seen, longest, c))
    && seen <= Reach(m, h, |h| / 2)
    && (forall c :: c in seen && c.done == Collections.Range(|h| / 2) ==> |ids| == |h| / 2)
  }

  ghost predicate LongestInv<S, I, O>(m: Model<S, I, O>, h: seq<Entry<I, O>>, longest: seq<Option<seq<int>>>)
    requires WellFormed(h)
  {
    && |longest| == |h| / 2
    && (forall j :: 0 <= j < |longest| && longest[j].Some? ==> IsPartial(m, h, longest[j].value) && j in longest[j].value)
  }

  ghost predicate Inv<S, I, O>(m: Model<S, I, O>, h: seq<Entry<I, O>>, partials: bool, a: Search<S>)
    requires WellFormed(h)
  {
    && PathInv(m, h, a.ids, a.states)
    && CursorInv(h, a.Done(), a.cursor)
    && StackInv(m, h, a.ids, a.states, a.seen)
    && Tried(m, h, Config(a.Done(), a.State()), a.cursor, a.seen)
    && SeenInv(m, h, partials, a.ids, a.states, a.seen, a.longest)
    && LongestInv(m, h, a.longest)
    && (a.cursor == |h| ==> |a.ids| == |h| / 2)
  }

  // ---------- partial orders, one operation at a time ----------

  lemma {:induction false} PartialPrefix<S, I, O>(m: Model<S, I, O>, h: seq<Entry<I, O>>, s: seq<int>, i: int)
    requires WellFormed(h) && IsPartial(m, h, s) && 0 <= i <= |s|
    ensures IsPartial(m, h, s[..i])
    decreases |s|
  {
    if i == |s| {
      assert s[..i] == s;
    } else {
      var t := s[..|s| - 1];
      assert forall j :: 0 <= j < |t| ==> t[..j] == s[..j];
      PartialPrefix(m, h, t, i);
      assert t[..i] == s[..i];
    }
  }

  lemma PartialExtend<S, I, O>(m: Model<S, I, O>, h: seq<Entry<I, O>>, s: seq<int>, st: S, x: int)
    requires WellFormed(h) && IsPartial(m, h, s) && Exec(m, h, s) == Some(st)
    requires CanStep(m, h, Config(Elements(s), st), x)
    ensures IsPartial(m, h, s + [x])
    ensures Exec(m, h, s + [x]) == Some(StepOf(m, h, st, x).1)
  {
    var t := s + [x];
    assert t[..|t| - 1] == s;
    forall i, a | 0 <= i < |t| && Precedes(h, a, t[i]) ensures a in t[..i] {
      if i < |s| {
        assert t[..i] == s[..i] && t[i] == s[i];
      } else {
        assert t[..i] == s;
      }
    }
  }

  /** The last operation of a partial order was a candidate where it was placed. */
  lemma PartialLast<S, I, O>(m: Model<S, I, O>, h: seq<Entry<I, O>>, s: seq<int>)
    requires WellFormed(h) && IsPartial(m, h, s) && s != []
    ensures IsPartial(m, h, s[..|s| - 1])
    ensures var c := ConfigOf(m, h, s[..|s| - 1]);
            CanStep(m, h, c, s[|s| - 1]) && ConfigOf(m, h, s) == Child(m, h, c, s[|s| - 1])
  {
    var k := |s| - 1;
    PartialPrefix(m, h, s, k);
    assert s == s[..k] + [s[k]];
    forall a | Precedes(h, a, s[k]) ensures a in Elements(s[..k]) {
      assert a in s[..k];
    }
    assert Elements(s) == Elements(s[..k]) + {s[k]};
  }

  ghost function ConfigOf<S, I, O>(m: Model<S, I, O>, h: seq<Entry<I, O>>, s: seq<int>): Config<S>
    requires WellFormed(h) && IsPartial(m, h, s)
  {
    Config(Elements(s), Exec(m, h, s).value)
  }

  lemma {:induction false} PartialInLevel<S, I, O>(m: Model<S, I, O>, h: seq<Entry<I, O>>, s: seq<int>)
    requires WellFormed(h) && IsPartial(m, h, s)
    ensures ConfigOf(m, h, s) in Level(m, h, |s|)
    decreases |s|
  {
    if s == [] {
      assert Elements(s) == {};
    } else {
      PartialLast(m, h, s);
      PartialInLevel(m, h, s[..|s| - 1]);
    }
  }

  lemma {:induction false} LevelInReach<S, I, O>(m: Model<S, I, O>, h: seq<Entry<I, O>>, k: nat, n: nat)
    requires WellFormed(h) && k <= n
    ensures Level(m, h, k) <= Reach(m, h, n)
  {
    hide Level, WellFormed;
    if k == n {
      if n > 0 { assert Reach(m, h, n) == Reach(m, h, n - 1) + Level(m, h, n); }
    } else {
      LevelInReach(m, h, k, n - 1);
    }
  }

  /** Only finitely many configurations can ever be seen. */
  lemma PartialInReach<S, I, O>(m: Model<S, I, O>, h: seq<Entry<I, O>>, s: seq<int>)
    requires WellFormed(h) && IsPartial(m, h, s)
    ensures |s| <= |h| / 2 && ConfigOf(m, h, s) in Reach(m, h, |h| / 2)
  {
    PartialSize(m, h, s);
    PartialInLevel(m, h, s);
    LevelInReach(m, h, |s|, |h| / 2);
  }

  lemma PartialSize<S, I, O>(m: Model<S, I, O>, h: seq<Entry<I, O>>, s: seq<int>)
    requires WellFormed(h) && IsPartial(m, h, s)
    ensures |s| <= |h| / 2
  {
    DistinctSize(s);
    Collections.AtMost(Elements(s), |h| / 2);
  }

  // ---------- the cursor ----------

  /** A call with no remaining return before it is a candidate. */
  lemma CallIsEnabled<I, O>(h: seq<Entry<I, O>>, done: set<int>, p: int)
    requires WellFormed(h) && Remaining(h, done, p) && h[p].Call?
    requires forall q :: 0 <= q < p && Remaining(h, done, q) ==> h[q].Call?
    ensures Enabled(h, done, h[p].id) && CallPos(h, h[p].id) == p
  {
    var x := h[p].id;
    assert IsCall(h, p, x);
    forall a | Precedes(h, a, x) ensures a in done {
      assert !Remaining(h, done, ReturnPos(h, a));
    }
  }

  /** A remaining return closes the candidates: their calls all lie before it. */
  lemma EnabledBeforeReturn<I, O>(h: seq<Entry<I, O>>, done: set<int>, p: int, x: int)
    requires WellFormed(h) && Remaining(h, done, p) && h[p].Return? && Enabled(h, done, x)
    ensures CallPos(h, x) < p
  {
    assert IsReturn(h, p, h[p].id);
    assert !Precedes(h, h[p].id, x);
    assert IsCall(h, CallPos(h, x), x);
  }

  /** Moving the cursor past linearized entries, and past one tried call, tries nothing new. */
  lemma TriedSkips<S, I, O>(m: Model<S, I, O>, h: seq<Entry<I, O>>, c: Config<S>, p: int, q: int, seen: set<Config<S>>)
    requires WellFormed(h) && 0 <= p <= q <= |h|
    requires Tried(m, h, c, p, seen)
    requires forall k :: p <= k < q ==> !Remaining(h, c.done, k)
    ensures Tried(m, h, c, q, seen)
  {
    forall x | CanStep(m, h, c, x) && CallPos(h, x) < q ensures Child(m, h, c, x) in seen {
      assert Remaining(h, c.done, CallPos(h, x));
    }
  }

  lemma TriedCall<S, I, O>(m: Model<S, I, O>, h: seq<Entry<I, O>>, c: Config<S>, x: int, seen: set<Config<S>>)
    requires WellFormed(h) && IsId(h, x)
    requires Tried(m, h, c, CallPos(h, x), seen)
    requires CanStep(m, h, c, x) ==> Child(m, h, c, x) in seen
    ensures Tried(m, h, c, CallPos(h, x) + 1, seen)
  {
    forall y | CanStep(m, h, c, y) && CallPos(h, y) < CallPos(h, x) + 1 ensures Child(m, h, c, y) in seen {
      assert h[CallPos(h, y)].id == y && h[CallPos(h, x)].id == x;
    }
  }

  lemma StartInv<S, I, O>(m: Model<S, I, O>, h: seq<Entry<I, O>>, partials: bool)
    requires WellFormed(h)
    ensures Inv(m, h, partials, Start(m, h))
  {
    assert Elements([]) == {};
  }

  // ---------- every turn keeps the invariant and lowers the measure ----------

  lemma AdvanceCursor<S, I, O>(m: Model<S, I, O>, h: seq<Entry<I, O>>, c: Config<S>, cursor: int, seen: set<Config<S>>)
    requires WellFormed(h) && CursorInv(h, c.done, cursor) && cursor < |h| && h[cursor].Call?
    requires Tried(m, h, c, cursor, seen)
    requires StepOf(m, h, c.state, h[cursor].id).0 ==> Child(m, h, c, h[cursor].id) in seen
    ensures var q := NextFrom(h, c.done, cursor + 1);
            cursor < q < |h| && CursorInv(h, c.done, q) && Tried(m, h, c, q, seen)
  {
    var x := h[cursor].id;
    CallIsEnabled(h, c.done, cursor);
    TriedCall(m, h, c, x, seen);
    TriedSkips(m, h, c, cursor + 1, NextFrom(h, c.done, cursor + 1), seen);
    assert Remaining(h, c.done, ReturnPos(h, x));
  }

  /** The call at the cursor is a candidate. */
  lemma CursorIsCandidate<I, O>(h: seq<Entry<I, O>>, done: set<int>, cursor: int)
    requires WellFormed(h) && CursorInv(h, done, cursor) && cursor < |h| && h[cursor].Call?
    ensures Enabled(h, done, h[cursor].id) && CallPos(h, h[cursor].id) == cursor
  {
    CallIsEnabled(h, done, cursor);
  }

  /** Pushing a candidate: the longer stack is a partial order. */
  lemma PushPath<S, I, O>(m: Model<S, I, O>, h: seq<Entry<I, O>>, ids: seq<int>, states: seq<S>, x: int)
    requires WellFormed(h) && PathInv(m, h, ids, states)
    requires CanStep(m, h, Config(Elements(ids), states[|ids|]), x)
    ensures PathInv(m, h, ids + [x], states + [StepOf(m, h, states[|ids|], x).1])
    ensures Elements(ids + [x]) == Elements(ids) + {x} && ValidIds(h, ids + [x]) && Distinct(ids + [x])
    ensures IsPartial(m, h, ids + [x])
    ensures ConfigOf(m, h, ids + [x]) == Config(Elements(ids) + {x}, StepOf(m, h, states[|ids|], x).1)
    ensures |ids| < |h| / 2
  {
    var t, st := ids + [x], states + [StepOf(m, h, states[|ids|], x).1];
    assert ids[..|ids|] == ids;
    PartialExtend(m, h, ids, states[|ids|], x);
    forall i | 0 <= i <= |t| ensures Exec(m, h, t[..i]) == Some(st[i]) {
      if i == |t| {
        assert t[..i] == t;
      } else {
        assert t[..i] == ids[..i];
      }
    }
    PartialSize(m, h, t);
  }

  lemma PushAt<S>(ids: seq<int>, states: seq<S>, x: int, next: S)
    requires |states| == |ids| + 1
    ensures forall i :: 0 <= i <= |ids| ==> At(ids + [x], states + [next], i) == At(ids, states, i)
    ensures At(ids + [x], states + [next], |ids| + 1) == Config(Elements(ids + [x]), next)
    ensures forall c :: OnStack(ids, states, c) ==> OnStack(ids + [x], states + [next], c)
  {
    forall i | 0 <= i <= |ids| ensures At(ids + [x], states + [next], i) == At(ids, states, i) {
      assert (ids + [x])[..i] == ids[..i];
    }
    assert (ids + [x])[..|ids| + 1] == ids + [x];
    forall c | OnStack(ids, states, c) ensures OnStack(ids + [x], states + [next], c) {
      var i :| 1 <= i <= |ids| && c == At(ids, states, i);
      assert c == At(ids + [x], states + [next], i);
    }
  }

  lemma PushStack<S, I, O>(m: Model<S, I, O>, h: seq<Entry<I, O>>, ids: seq<int>, states: seq<S>,
                           seen: set<Config<S>>, x: int, child: Config<S>)
    requires WellFormed(h) && PathInv(m, h, ids, states) && PathInv(m, h, ids + [x], states + [child.state])
    requires StackInv(m, h, ids, states, seen)
    requires Tried(m, h, Config(Elements(ids), states[|ids|]), CallPos(h, x), seen)
    requires child.done == Elements(ids + [x])
    ensures StackInv(m, h, ids + [x], states + [child.state], seen + {child})
  {
    var t, st, seen' := ids + [x], states + [child.state], seen + {child};
    PushAt(ids, states, x, child.state);
    assert ids[..|ids|] == ids;
    forall i | 0 <= i < |t| ensures Tried(m, h, At(t, st, i), CallPos(h, t[i]), seen') {
      if i < |ids| {
        assert Tried(m, h, At(ids, states, i), CallPos(h, ids[i]), seen);
      }
    }
    forall i | 1 <= i <= |t| ensures At(t, st, i) in seen' {
      if i <= |ids| {
        assert At(ids, states, i) in seen;
      }
    }
  }

  lemma PushSeen<S, I, O>(m: Model<S, I, O>, h: seq<Entry<I, O>>, partials: bool, ids: seq<int>, states: seq<S>,
                          seen: set<Config<S>>, longest: seq<Option<seq<int>>>, x: int, child: Config<S>)
    requires WellFormed(h) && |states| == |ids| + 1
    requires SeenInv(m, h, partials, ids, states, seen, longest)
    requires IsPartial(m, h, ids + [x]) && child == ConfigOf(m, h, ids + [x]) && |ids| < |h| / 2
    ensures SeenInv(m, h, partials, ids + [x], states + [child.state], seen + {child}, longest)
  {
    var t, st, seen' := ids + [x], states + [child.state], seen + {child};
    PushAt(ids, states, x, child.state);
    forall c | c in seen' ensures OnStack(t, st, c) || Finished(m, h, partials, seen', longest, c) {
      if c == child {
        assert c == At(t, st, |t|);
      } else if Finished(m, h, partials, seen, longest, c) {
        assert Tried(m, h, c, |h|, seen');
      }
    }
    PartialInReach(m, h, t);
    DistinctSize(t);
  }

  /** With nothing remaining, every operation is linearized. */
  lemma NothingRemains<I, O>(h: seq<Entry<I, O>>, s: seq<int>)
    requires WellFormed(h) && ValidIds(h, s) && Distinct(s)
    requires forall p :: 0 <= p < |h| ==> !Remaining(h, Elements(s), p)
    ensures |s| == |h| / 2
  {
    DistinctSize(s);
    forall x | x in Collections.Range(|h| / 2) ensures x in Elements(s) {
      assert !Remaining(h, Elements(s), CallPos(h, x));
    }
    assert Elements(s) == Collections.Range(|h| / 2);
  }

  /** After a push the search starts over at the first remaining entry. */
  lemma PushCursor<S, I, O>(m: Model<S, I, O>, h: seq<Entry<I, O>>, ids: seq<int>, child: Config<S>, seen: set<Config<S>>)
    requires WellFormed(h) && ValidIds(h, ids) && Distinct(ids) && child.done == Elements(ids)
    ensures var q := NextFrom(h, child.done, 0);
            CursorInv(h, child.done, q) && Tried(m, h, child, q, seen) && (q == |h| ==> |ids| == |h| / 2)
  {
    var q := NextFrom(h, child.done, 0);
    assert Tried(m, h, child, 0, seen);
    TriedSkips(m, h, child, 0, q, seen);
    if q == |h| { NothingRemains(h, ids); }
  }

  lemma PushMeasure<S, I, O>(m: Model<S, I, O>, h: seq<Entry<I, O>>, s: seq<int>, child: Config<S>, seen: set<Config<S>>)
    requires WellFormed(h) && IsPartial(m, h, s) && child == ConfigOf(m, h, s) && child !in seen
    ensures Reach(m, h, |h| / 2) - (seen + {child}) < Reach(m, h, |h| / 2) - seen
  {
    PartialInReach(m, h, s);
    var r := Reach(m, h, |h| / 2);
    assert child in r - seen && child !in r - (seen + {child});
  }

  /** At a remaining return nothing is left to try. */
  lemma TriedAtReturn<S, I, O>(m: Model<S, I, O>, h: seq<Entry<I, O>>, c: Config<S>, cursor: int, seen: set<Config<S>>)
    requires WellFormed(h) && Remaining(h, c.done, cursor) && h[cursor].Return?
    requires Tried(m, h, c, cursor, seen)
    ensures Tried(m, h, c, |h|, seen)
  {
    forall x | CanStep(m, h, c, x) && CallPos(h, x) < |h| ensures Child(m, h, c, x) in seen {
      EnabledBeforeReturn(h, c.done, cursor, x);
    }
  }

  lemma PopPath<S, I, O>(m: Model<S, I, O>, h: seq<Entry<I, O>>, ids: seq<int>, states: seq<S>)
    requires WellFormed(h) && PathInv(m, h, ids, states) && ids != []
    ensures var k := |ids| - 1;
            && PathInv(m, h, ids[..k], states[..k + 1])
            && CanStep(m, h, Config(Elements(ids[..k]), states[k]), ids[k])
            && Child(m, h, Config(Elements(ids[..k]), states[k]), ids[k]) == Config(Elements(ids), states[k + 1])
  {
    var k := |ids| - 1;
    PartialLast(m, h, ids);
    assert ids[..k + 1] == ids;
    assert Exec(m, h, ids[..k]) == Some(states[k]) && Exec(m, h, ids) == Some(states[k + 1]);
    forall i | 0 <= i <= k ensures ids[..k][..i] == ids[..i] { }
  }

  /** The cursor after backtracking: no remaining return precedes the popped call. */
  lemma PopCursor<S, I, O>(m: Model<S, I, O>, h: seq<Entry<I, O>>, c: Config<S>, x: int, seen: set<Config<S>>)
    requires WellFormed(h) && CanStep(m, h, c, x)
    requires Tried(m, h, c, CallPos(h, x), seen) && Child(m, h, c, x) in seen
    ensures var q := NextFrom(h, c.done, CallPos(h, x) + 1);
            q < |h| && CursorInv(h, c.done, q) && Tried(m, h, c, q, seen)
  {
    var p := CallPos(h, x);
    var q := NextFrom(h, c.done, p + 1);
    assert Remaining(h, c.done, ReturnPos(h, x));
    TriedCall(m, h, c, x, seen);
    TriedSkips(m, h, c, p + 1, q, seen);
    forall k | 0 <= k < q && Remaining(h, c.done, k) ensures h[k].Call? {
      if k < p && h[k].Return? {
        assert IsReturn(h, k, h[k].id);
        assert Precedes(h, h[k].id, x);
        assert false;
      }
    }
  }

  lemma FinishedKept<S, I, O>(m: Model<S, I, O>, h: seq<Entry<I, O>>, partials: bool, ids: seq<int>,
                              seen: set<Config<S>>, longest: seq<Option<seq<int>>>, c: Config<S>)
    requires WellFormed(h) && Finished(m, h, partials, seen, longest, c)
    ensures Finished(m, h, partials, seen, if partials then Record(longest, ids) else longest, c)
  {
  }

  lemma FinishedTop<S, I, O>(m: Model<S, I, O>, h: seq<Entry<I, O>>, partials: bool, ids: seq<int>,
                             seen: set<Config<S>>, longest: seq<Option<seq<int>>>, c: Config<S>)
    requires WellFormed(h) && Tried(m, h, c, |h|, seen) && c.done == Elements(ids) && Distinct(ids)
    ensures Finished(m, h, partials, seen, if partials then Record(longest, ids) else longest, c)
  {
    DistinctSize(ids);
    assert forall j :: j in c.done ==> j in ids;
  }

  /** While an entry remains, some operation is not linearized. */
  lemma SomethingRemains<I, O>(h: seq<Entry<I, O>>, s: seq<int>, p: int)
    requires WellFormed(h) && ValidIds(h, s) && Distinct(s) && Remaining(h, Elements(s), p)
    ensures |s| != |h| / 2
  {
    if |s| == |h| / 2 {
      AllOccur(s, |h| / 2);
      assert false;
    }
  }

  lemma PopOnStack<S>(ids: seq<int>, states: seq<S>, c: Config<S>)
    requires |states| == |ids| + 1 && ids != [] && OnStack(ids, states, c)
    ensures OnStack(ids[..|ids| - 1], states[..|ids|], c) || c == Config(Elements(ids), states[|ids|])
  {
    var k := |ids| - 1;
    var i :| 1 <= i <= |ids| && c == At(ids, states, i);
    if i <= k {
      assert ids[..k][..i] == ids[..i];
      assert c == At(ids[..k], states[..k + 1], i);
    } else {
      assert ids[..i] == ids;
    }
  }

  lemma PopSeen<S, I, O>(m: Model<S, I, O>, h: seq<Entry<I, O>>, partials: bool, ids: seq<int>, states: seq<S>,
                         seen: set<Config<S>>, longest: seq<Option<seq<int>>>)
    requires WellFormed(h) && |states| == |ids| + 1 && ids != [] && Distinct(ids)
    requires SeenInv(m, h, partials, ids, states, seen, longest)
    requires Tried(m, h, Config(Elements(ids), states[|ids|]), |h|, seen)
    requires |ids| != |h| / 2
    ensures SeenInv(m, h, partials, ids[..|ids| - 1], states[..|ids|], seen, if partials then Record(longest, ids) else longest)
  {
    var t, st := ids[..|ids| - 1], states[..|ids|];
    var longest' := if partials then Record(longest, ids) else longest;
    forall c | c in seen ensures OnStack(t, st, c) || Finished(m, h, partials, seen, longest', c) {
      if OnStack(ids, states, c) {
        PopOnStack(ids, states, c);
        if c == Config(Elements(ids), states[|ids|]) {
          FinishedTop(m, h, partials, ids, seen, longest, c);
        }
      } else {
        FinishedKept(m, h, partials, ids, seen, longest, c);
      }
    }
  }

  lemma PopStack<S, I, O>(m: Model<S, I, O>, h: seq<Entry<I, O>>, ids: seq<int>, states: seq<S>, seen: set<Config<S>>)
    requires WellFormed(h) && PathInv(m, h, ids, states) && ids != []
    requires PathInv(m, h, ids[..|ids| - 1], states[..|ids|])
    requires StackInv(m, h, ids, states, seen)
    ensures StackInv(m, h, ids[..|ids| - 1], states[..|ids|], seen)
    ensures Tried(m, h, Config(Elements(ids[..|ids| - 1]), states[|ids| - 1]), CallPos(h, ids[|ids| - 1]), seen)
    ensures Config(Elements(ids), states[|ids|]) in seen
  {
    hide Tried, WellFormed, Exec, Precedes;
    var k := |ids| - 1;
    var t, st := ids[..k], states[..k + 1];
    assert At(ids, states, |ids|) == Config(Elements(ids), states[|ids|]) by {
      assert ids[..|ids|] == ids;
    }
    assert At(ids, states, k) == Config(Elements(ids[..k]), states[k]);
    assert Tried(m, h, At(ids, states, k), CallPos(h, ids[k]), seen);
    forall i | 0 <= i < k ensures Tried(m, h, At(t, st, i), CallPos(h, t[i]), seen) {
      assert t[..i] == ids[..i];
      assert Tried(m, h, At(ids, states, i), CallPos(h, ids[i]), seen);
    }
    forall i | 1 <= i <= k ensures At(t, st, i) in seen {
      assert t[..i] == ids[..i];
      assert At(ids, states, i) in seen;
    }
  }

  lemma PopLongest<S, I, O>(m: Model<S, I, O>, h: seq<Entry<I, O>>, ids: seq<int>, longest: seq<Option<seq<int>>>)
    requires WellFormed(h) && IsPartial(m, h, ids) && LongestInv(m, h, longest)
    ensures LongestInv(m, h, Record(longest, ids))
  {
  }

  // ---------- the three turns, put together ----------

  lemma InvElim<S, I, O>(m: Model<S, I, O>, h: seq<Entry<I, O>>, partials: bool, a: Search<S>)
    requires WellFormed(h) && Inv(m, h, partials, a)
    ensures |a.states| == |a.ids| + 1 && a.State() == a.states[|a.ids|] && a.Done() == Elements(a.ids)
    ensures ValidIds(h, a.ids) && Distinct(a.ids) && IsPartial(m, h, a.ids)
    ensures forall i :: 0 <= i < |a.ids| ==> IsId(h, a.ids[i])
    ensures Exec(m, h, a.ids) == Some(a.states[|a.ids|])
    ensures PathInv(m, h, a.ids, a.states)
    ensures 0 <= a.cursor <= |h| && CursorInv(h, Elements(a.ids), a.cursor)
    ensures a.cursor < |h| ==> Remaining(h, Elements(a.ids), a.cursor) && IsId(h, h[a.cursor].id)
    ensures StackInv(m, h, a.ids, a.states, a.seen)
    ensures Tried(m, h, Config(Elements(a.ids), a.states[|a.ids|]), a.cursor, a.seen)
    ensures SeenInv(m, h, partials, a.ids, a.states, a.seen, a.longest)
    ensures LongestInv(m, h, a.longest) && |a.longest| == |h| / 2
    ensures a.cursor == |h| ==> |a.ids| == |h| / 2
  {
    hide StackInv, SeenInv, Tried;
    assert a.ids[..|a.ids|] == a.ids;
  }

  lemma InvIntro<S, I, O>(m: Model<S, I, O>, h: seq<Entry<I, O>>, partials: bool, ids: seq<int>, states: seq<S>, cursor: int,
                          seen: set<Config<S>>, longest: seq<Option<seq<int>>>) returns (b: Search<S>)
    requires WellFormed(h) && PathInv(m, h, ids, states) && |states| == |ids| + 1
    requires CursorInv(h, Elements(ids), cursor) && StackInv(m, h, ids, states, seen)
    requires Tried(m, h, Config(Elements(ids), states[|ids|]), cursor, seen)
    requires SeenInv(m, h, partials, ids, states, seen, longest) && LongestInv(m, h, longest)
    requires cursor == |h| ==> |ids| == |h| / 2
    ensures b == Search(ids, states, cursor, seen, longest) && Inv(m, h, partials, b)
    ensures b.State() == states[|ids|] && b.Done() == Elements(ids)
  {
    hide PathInv, CursorInv, StackInv, SeenInv, LongestInv, Tried, WellFormed;
    b := Search(ids, states, cursor, seen, longest);
  }

  /** What `Next` is, case by case. */
  lemma NextCases<S, I, O>(m: Model<S, I, O>, h: seq<Entry<I, O>>, partials: bool, a: Search<S>)
    requires WellFormed(h) && Shape(h, a) && !Stuck(h, a)
    ensures h[a.cursor].Call? ==>
      var x := h[a.cursor].id;
      var (ok, next) := StepOf(m, h, a.State(), x);
      Next(m, h, partials, a) ==
        if ok && Config(a.Done() + {x}, next) !in a.seen then
          Search(a.ids + [x], a.states + [next], NextFrom(h, a.Done() + {x}, 0), a.seen + {Config(a.Done() + {x}, next)}, a.longest)
        else
          Search(a.ids, a.states, NextFrom(h, a.Done(), a.cursor + 1), a.seen, a.longest)
    ensures h[a.cursor].Return? ==>
      var k := |a.ids| - 1;
      Next(m, h, partials, a) ==
        Search(a.ids[..k], a.states[..k + 1], NextFrom(h, Elements(a.ids[..k]), CallPos(h, a.ids[k]) + 1),
               a.seen, if partials then Record(a.longest, a.ids) else a.longest)
  {
    hide WellFormed, NextFrom, StepOf;
  }

  lemma ShapeIntro<S, I, O>(h: seq<Entry<I, O>>, a: Search<S>)
    requires |a.states| == |a.ids| + 1 && ValidIds(h, a.ids) && 0 <= a.cursor < |h|
    ensures Shape(h, a)
    ensures h[a.cursor].Call? || a.ids != [] ==> !Stuck(h, a)
  {
  }

  /** A turn at a call that is not allowed or leads to a configuration seen before. */
  lemma AdvanceTurn<S, I, O>(m: Model<S, I, O>, h: seq<Entry<I, O>>, partials: bool, a: Search<S>, x: int, next: S)
    returns (b: Search<S>)
    requires WellFormed(h) && Inv(m, h, partials, a) && 0 <= a.cursor < |h| && h[a.cursor].Call?
    requires x == h[a.cursor].id && IsId(h, x) && a.states != []
    requires StepOf(m, h, a.State(), x).1 == next
    requires StepOf(m, h, a.State(), x).0 ==> Config(a.Done() + {x}, next) in a.seen
    ensures Shape(h, a) && !Stuck(h, a) && b == Next(m, h, partials, a) && Inv(m, h, partials, b)
    ensures b == Search(a.ids, a.states, NextFrom(h, Elements(a.ids), a.cursor + 1), a.seen, a.longest)
    ensures b.states != [] && b.State() == a.State() && b.Done() == a.Done() && a.cursor < b.cursor < |h|
  {
    hide *;
    InvElim(m, h, partials, a);
    ShapeIntro(h, a);
    NextCases(m, h, partials, a);
    var c := Config(Elements(a.ids), a.states[|a.ids|]);
    ChildIs(m, h, c, x);
    AdvanceCursor(m, h, c, a.cursor, a.seen);
    b := InvIntro(m, h, partials, a.ids, a.states, NextFrom(h, Elements(a.ids), a.cursor + 1), a.seen, a.longest);
  }

  lemma ChildIs<S, I, O>(m: Model<S, I, O>, h: seq<Entry<I, O>>, c: Config<S>, x: int)
    requires WellFormed(h) && IsId(h, x)
    ensures Child(m, h, c, x) == Config(c.done + {x}, StepOf(m, h, c.state, x).1)
    ensures CanStep(m, h, c, x) <==> Enabled(h, c.done, x) && StepOf(m, h, c.state, x).0
  {
  }

  /** A turn at a call that is allowed and leads to a new configuration. */
  lemma PushTurn<S, I, O>(m: Model<S, I, O>, h: seq<Entry<I, O>>, partials: bool, a: Search<S>, x: int, next: S)
    returns (b: Search<S>)
    requires WellFormed(h) && Inv(m, h, partials, a) && 0 <= a.cursor < |h| && h[a.cursor].Call?
    requires x == h[a.cursor].id && IsId(h, x) && a.states != []
    requires StepOf(m, h, a.State(), x) == (true, next) && Config(a.Done() + {x}, next) !in a.seen
    ensures Shape(h, a) && !Stuck(h, a) && b == Next(m, h, partials, a) && Inv(m, h, partials, b)
    ensures b == Search(a.ids + [x], a.states + [next], NextFrom(h, Elements(a.ids + [x]), 0),
                        a.seen + {Config(a.Done() + {x}, next)}, a.longest)
    ensures b.states != [] && b.State() == next && b.Done() == a.Done() + {x}
    ensures Reach(m, h, |h| / 2) - b.seen < Reach(m, h, |h| / 2) - a.seen
  {
    hide *;
    InvElim(m, h, partials, a);
    ShapeIntro(h, a);
    NextCases(m, h, partials, a);
    var c := Config(Elements(a.ids), a.states[|a.ids|]);
    var child := Config(c.done + {x}, next);
    ChildIs(m, h, c, x);
    CursorIsCandidate(h, c.done, a.cursor);
    PushPath(m, h, a.ids, a.states, x);
    PushStack(m, h, a.ids, a.states, a.seen, x, child);
    PushSeen(m, h, partials, a.ids, a.states, a.seen, a.longest, x, child);
    PushCursor(m, h, a.ids + [x], child, a.seen + {child});
    PushMeasure(m, h, a.ids + [x], child, a.seen);
    b := InvIntro(m, h, partials, a.ids + [x], a.states + [next], NextFrom(h, child.done, 0), a.seen + {child}, a.longest);
  }

  /** A turn at a return, with operations on the stack. */
  lemma PopTurn<S, I, O>(m: Model<S, I, O>, h: seq<Entry<I, O>>, partials: bool, a: Search<S>)
    returns (b: Search<S>)
    requires WellFormed(h) && Inv(m, h, partials, a) && 0 <= a.cursor < |h| && h[a.cursor].Return? && a.ids != []
    ensures Shape(h, a) && !Stuck(h, a) && b == Next(m, h, partials, a) && Inv(m, h, partials, b)
    ensures var k := |a.ids| - 1;
            && IsId(h, a.ids[k]) && a.ids[k] !in b.Done() && a.Done() == b.Done() + {a.ids[k]}
            && |a.states| == |a.ids| + 1
            && b == Search(a.ids[..k], a.states[..|a.ids|], NextFrom(h, Elements(a.ids[..k]), CallPos(h, a.ids[k]) + 1),
                           a.seen, if partials then Record(a.longest, a.ids) else a.longest)
            && b.states != [] && b.State() == a.states[k] && |b.ids| < |a.ids|
  {
    hide *;
    InvElim(m, h, partials, a);
    ShapeIntro(h, a);
    NextCases(m, h, partials, a);
    var k := |a.ids| - 1;
    var ids, states, x := a.ids[..k], a.states[..|a.ids|], a.ids[k];
    var longest := if partials then Record(a.longest, a.ids) else a.longest;
    PopPath(m, h, a.ids, a.states);
    PopElements(a.ids);
    SomethingRemains(h, a.ids, a.cursor);
    TriedAtReturn(m, h, Config(Elements(a.ids), a.states[|a.ids|]), a.cursor, a.seen);
    PopSeen(m, h, partials, a.ids, a.states, a.seen, a.longest);
    PopStack(m, h, a.ids, a.states, a.seen);
    PopLongest(m, h, a.ids, a.longest);
    PosRange(h, x);
    PopCursor(m, h, Config(Elements(ids), states[k]), x, a.seen);
    b := InvIntro(m, h, partials, ids, states, NextFrom(h, Elements(ids), CallPos(h, x) + 1), a.seen, longest);
  }

  lemma PosRange<I, O>(h: seq<Entry<I, O>>, x: int)
    requires WellFormed(h) && IsId(h, x)
    ensures 0 <= CallPos(h, x) < ReturnPos(h, x) < |h|
  {
  }

  lemma PopElements(s: seq<int>)
    requires s != [] && Distinct(s)
    ensures var k := |s| - 1;
            Elements(s) == Elements(s[..k]) + {s[k]} && s[k] !in Elements(s[..k])
  {
    assert s == s[..|s| - 1] + [s[|s| - 1]];
  }

  // ---------- what each way of stopping means ----------

  /** An empty list means that the stack is a linearization. */
  lemma SoundStop<S, I, O>(m: Model<S, I, O>, h: seq<Entry<I, O>>, partials: bool, a: Search<S>)
    requires WellFormed(h) && Inv(m, h, partials, a) && a.cursor == |h|
    ensures IsLinearization(m, h, a.ids)
  {
    CompletePartialIsLinearization(m, h, a.ids);
  }

  /** When the search is stuck, every partial order's configuration has been seen. */
  lemma {:induction false} StuckSawAll<S, I, O>(m: Model<S, I, O>, h: seq<Entry<I, O>>, partials: bool, a: Search<S>, s: seq<int>)
    requires WellFormed(h) && Inv(m, h, partials, a) && a.cursor < |h| && Stuck(h, a)
    requires IsPartial(m, h, s) && s != []
    ensures ConfigOf(m, h, s) in a.seen
    decreases |s|
  {
    var t := s[..|s| - 1];
    PartialLast(m, h, s);
    if t == [] {
      assert Elements(t) == a.Done();
      TriedAtReturn(m, h, Config(a.Done(), a.State()), a.cursor, a.seen);
      assert a.ids[..0] == t;
    } else {
      StuckSawAll(m, h, partials, a, t);
      StuckFinished(m, h, partials, a, ConfigOf(m, h, t));
    }
  }

  lemma StuckFinished<S, I, O>(m: Model<S, I, O>, h: seq<Entry<I, O>>, partials: bool, a: Search<S>, c: Config<S>)
    requires WellFormed(h) && Inv(m, h, partials, a) && a.cursor < |h| && Stuck(h, a) && c in a.seen
    ensures Finished(m, h, partials, a.seen, a.longest, c)
  {
    assert !OnStack(a.ids, a.states, c);
  }

  /** A stuck search has refuted every linearization. */
  lemma CompleteStop<S, I, O>(m: Model<S, I, O>, h: seq<Entry<I, O>>, partials: bool, a: Search<S>)
    requires WellFormed(h) && Inv(m, h, partials, a) && a.cursor < |h| && Stuck(h, a)
    ensures !LinearizableEntries(m, h)
  {
    forall s ensures !IsLinearization(m, h, s) {
      if IsLinearization(m, h, s) {
        LinearizationIsPartial(m, h, s);
        StuckSawAll(m, h, partials, a, s);
        AllOccur(s, |h| / 2);
        assert false;
      }
    }
  }

  /** A stuck search has recorded, for each operation, a longest partial order with it. */
  lemma LongestStop<S, I, O>(m: Model<S, I, O>, h: seq<Entry<I, O>>, a: Search<S>, s: seq<int>, j: int)
    requires WellFormed(h) && Inv(m, h, true, a) && a.cursor < |h| && Stuck(h, a)
    requires IsPartial(m, h, s) && j in s
    ensures 0 <= j < |a.longest| && a.longest[j].Some? && |a.longest[j].value| >= |s|
  {
    StuckSawAll(m, h, true, a, s);
    StuckFinished(m, h, true, a, ConfigOf(m, h, s));
    DistinctSize(s);
    assert j in ConfigOf(m, h, s).done;
  }
}
