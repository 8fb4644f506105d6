/** The linearizability checker itself: the search over the linked list, with its bitset,
    its cache and its stack, proved to follow the search on plain values turn by turn. */
module Checker {
  import opened Linearizability
  import opened Search
  import opened DancingLinks
  import Bitset
  import Cache

  datatype CallsEntry<I, O, S> = CallsEntry(entry: Node<I, O>, state: S)

  // ---------- what a verdict means ----------

  /** `longest` gives each operation a partial order with it that is as long as any. */
  ghost predicate LongestPossible<S, I, O>(m: Model<S, I, O>, h: seq<Entry<I, O>>, longest: seq<Option<seq<int>>>)
    requires WellFormed(h)
  {
    forall s, j :: IsPartial(m, h, s) && j in s ==>
      0 <= j < |longest| && longest[j].Some? && |longest[j].value| >= |s|
  }

  /** What a run of the checker that was or was not killed may answer. */
  ghost predicate Verdict<S, I, O>(m: Model<S, I, O>, h: seq<Entry<I, O>>, partials: bool, killed: bool,
                                   ok: bool, longest: seq<Option<seq<int>>>)
    requires WellFormed(h)
  {
    && LongestInv(m, h, longest)
    && (ok ==> LinearizableEntries(m, h))
    && (ok ==> forall j :: 0 <= j < |longest| ==> longest[j].Some? && IsLinearization(m, h, longest[j].value))
    && (!ok && !killed ==> !LinearizableEntries(m, h))
    && (!ok && !killed && partials ==> LongestPossible(m, h, longest))
  }

  // ---------- the list and the cursor ----------

  /** The places of the entries of the linearized operations. */
  ghost function Gone<I, O>(h: seq<Entry<I, O>>, done: set<int>): (r: set<int>)
    ensures forall k :: k in r <==> 1 <= k <= |h| && !Remaining(h, done, k - 1)
  {
    GoneBelow(h, done, |h|)
  }

  ghost function GoneBelow<I, O>(h: seq<Entry<I, O>>, done: set<int>, n: nat): (r: set<int>)
    requires n <= |h|
    ensures forall k :: k in r <==> 1 <= k <= n && !Remaining(h, done, k - 1)
  {
    if n == 0 then {} else
      GoneBelow(h, done, n - 1) + if Remaining(h, done, n - 1) then {} else {n}
  }

  lemma GoneAdd<I, O>(h: seq<Entry<I, O>>, done: set<int>, x: int)
    requires WellFormed(h) && IsId(h, x) && x !in done
    ensures Gone(h, done + {x}) == Gone(h, done) + {CallPos(h, x) + 1} + {ReturnPos(h, x) + 1}
    ensures CallPos(h, x) + 1 !in Gone(h, done) && ReturnPos(h, x) + 1 !in Gone(h, done)
  {
    var c, r := CallPos(h, x), ReturnPos(h, x);
    assert Remaining(h, done, c) && Remaining(h, done, r);
    forall k ensures k in Gone(h, done + {x}) <==> k in Gone(h, done) + {c + 1} + {r + 1} {
      if 1 <= k <= |h| && h[k - 1].id == x {
        assert IsCall(h, k - 1, x) || IsReturn(h, k - 1, x);
      }
    }
  }

  /** The list's next node is the search's next entry; place 0 is the head. */
  lemma NextIsAdjacent<I, O>(h: seq<Entry<I, O>>, done: set<int>, p: int)
    requires -1 <= p < |h| && (p >= 0 ==> Remaining(h, done, p))
    ensures Adjacent(|h| + 1, Gone(h, done), p + 1, NextFrom(h, done, p + 1) + 1)
  {
    var q := NextFrom(h, done, p + 1);
    forall k | p + 1 < k < q + 1 ensures k in Gone(h, done) {
      assert !Remaining(h, done, k - 1);
    }
  }

  /** The pointers of all places. */
  ghost function Links<I, O>(nodes: seq<Node<I, O>>): (r: seq<Link<I, O>>)
    reads nodes
    ensures |r| == |nodes| && forall k :: 0 <= k < |r| ==> r[k] == LinkOf(nodes[k])
  {
    seq(|nodes|, k requires 0 <= k < |nodes| reads nodes => LinkOf(nodes[k]))
  }

  ghost predicate SavedOp<I, O>(h: seq<Entry<I, O>>, nodes: seq<Node<I, O>>, links: seq<Link<I, O>>, done: set<int>, x: int)
    requires WellFormed(h) && |links| == |h| + 1 && IsId(h, x)
  {
    var c, r := CallPos(h, x) + 1, ReturnPos(h, x) + 1;
    Saves(nodes, Gone(h, done), c, links[c]) && Saves(nodes, Gone(h, done) + {c}, r, links[r])
  }

  ghost predicate SavedAt<I, O>(h: seq<Entry<I, O>>, nodes: seq<Node<I, O>>, links: seq<Link<I, O>>, ids: seq<int>, i: int)
    requires WellFormed(h) && |links| == |h| + 1 && ValidIds(h, ids) && 0 <= i < |ids|
  {
    SavedOp(h, nodes, links, Elements(ids[..i]), ids[i])
  }

  ghost predicate SavedOps<I, O>(h: seq<Entry<I, O>>, nodes: seq<Node<I, O>>, links: seq<Link<I, O>>, ids: seq<int>)
    requires WellFormed(h) && |links| == |h| + 1 && ValidIds(h, ids)
  {
    forall i :: 0 <= i < |ids| ==> SavedAt(h, nodes, links, ids, i)
  }

  /** The list is the history without the linearized operations, and each of those still
      points to where it was when it was lifted. */
  ghost predicate ListOk<I, O>(h: seq<Entry<I, O>>, nodes: seq<Node<I, O>>, ids: seq<int>)
    requires WellFormed(h) && ValidIds(h, ids)
    reads nodes
  {
    && Represents(h, nodes)
    && Linked(nodes, Gone(h, Elements(ids)))
    && SavedOps(h, nodes, Links(nodes), ids)
  }

  /** Nodes that are out of the list keep their pointers, hence their way back. */
  lemma SavedStays<I, O>(h: seq<Entry<I, O>>, nodes: seq<Node<I, O>>, was: seq<Link<I, O>>, links: seq<Link<I, O>>, ids: seq<int>)
    requires WellFormed(h) && |was| == |links| == |h| + 1 && ValidIds(h, ids)
    requires SavedOps(h, nodes, was, ids)
    requires forall k :: k in Gone(h, Elements(ids)) ==> links[k] == was[k]
    ensures SavedOps(h, nodes, links, ids)
  {
    forall i | 0 <= i < |ids| ensures SavedAt(h, nodes, links, ids, i) {
      var c, r := CallPos(h, ids[i]), ReturnPos(h, ids[i]);
      assert SavedAt(h, nodes, was, ids, i);
      assert !Remaining(h, Elements(ids), c) && !Remaining(h, Elements(ids), r);
      assert c + 1 in Gone(h, Elements(ids)) && r + 1 in Gone(h, Elements(ids));
    }
  }

  lemma SavedOpsPush<I, O>(h: seq<Entry<I, O>>, nodes: seq<Node<I, O>>, links: seq<Link<I, O>>, ids: seq<int>, x: int)
    requires WellFormed(h) && |links| == |h| + 1 && ValidIds(h, ids) && IsId(h, x)
    ensures ValidIds(h, ids + [x])
    ensures SavedOps(h, nodes, links, ids + [x]) <==> SavedOps(h, nodes, links, ids) && SavedOp(h, nodes, links, Elements(ids), x)
  {
    var t := ids + [x];
    assert forall i :: 0 <= i <= |ids| ==> t[..i] == ids[..i];
    assert ids[..|ids|] == ids;
    if SavedOps(h, nodes, links, t) {
      forall i | 0 <= i < |ids| ensures SavedAt(h, nodes, links, ids, i) {
        assert SavedAt(h, nodes, links, t, i);
      }
      assert SavedAt(h, nodes, links, t, |ids|);
    }
    if SavedOps(h, nodes, links, ids) && SavedOp(h, nodes, links, Elements(ids), x) {
      forall i | 0 <= i < |t| ensures SavedAt(h, nodes, links, t, i) {
        if i < |ids| { assert SavedAt(h, nodes, links, ids, i); }
      }
    }
  }

  /** Before or after lifting x: its two places, and the list without them. */
  lemma OpPlaces<I, O>(h: seq<Entry<I, O>>, nodes: seq<Node<I, O>>, ids: seq<int>, x: int, c: int, r: int)
    requires WellFormed(h) && ValidIds(h, ids) && IsId(h, x) && x !in ids && Represents(h, nodes)
    requires c == CallPos(h, x) + 1 && r == ReturnPos(h, x) + 1
    ensures |nodes| == |h| + 1 && Present(nodes, Gone(h, Elements(ids)), c, r)
    ensures Gone(h, Elements(ids + [x])) == Gone(h, Elements(ids)) + {c} + {r}
  {
    assert Elements(ids + [x]) == Elements(ids) + {x};
    GoneAdd(h, Elements(ids), x);
    assert Carries(h, nodes, CallPos(h, x));
    assert h[CallPos(h, x)].id == x;
  }

  method LiftOp<I, O>(entry: Node<I, O>, ghost h: seq<Entry<I, O>>, ghost nodes: seq<Node<I, O>>, ghost ids: seq<int>, ghost x: int)
    requires WellFormed(h) && ValidIds(h, ids) && IsId(h, x) && x !in ids
    requires ListOk(h, nodes, ids) && entry == nodes[CallPos(h, x) + 1]
    modifies nodes
    ensures ValidIds(h, ids + [x]) && ListOk(h, nodes, ids + [x])
  {
    hide WellFormed, SavedOps, Saves, Linked, Present, Represents, Gone;
    ghost var gone, was := Gone(h, Elements(ids)), Links(nodes);
    ghost var c, r := CallPos(h, x) + 1, ReturnPos(h, x) + 1;
    OpPlaces(h, nodes, ids, x, c, r);
    Lift(entry, nodes, gone, c, r);
    assert Linked(nodes, Gone(h, Elements(ids + [x])));
    ghost var links := Links(nodes);
    assert SavedOp(h, nodes, links, Elements(ids), x);
    SavedStays(h, nodes, was, links, ids);
    SavedOpsPush(h, nodes, links, ids, x);
  }

  method UnliftOp<I, O>(entry: Node<I, O>, ghost h: seq<Entry<I, O>>, ghost nodes: seq<Node<I, O>>, ghost ids: seq<int>, ghost x: int)
    requires WellFormed(h) && ValidIds(h, ids) && IsId(h, x) && x !in ids && ValidIds(h, ids + [x])
    requires ListOk(h, nodes, ids + [x]) && entry == nodes[CallPos(h, x) + 1]
    modifies nodes
    ensures ListOk(h, nodes, ids)
  {
    hide WellFormed, SavedOps, Saves, Linked, Present, Represents, Gone;
    ghost var gone, was := Gone(h, Elements(ids)), Links(nodes);
    ghost var c, r := CallPos(h, x) + 1, ReturnPos(h, x) + 1;
    OpPlaces(h, nodes, ids, x, c, r);
    SavedOpsPush(h, nodes, was, ids, x);
    assert Linked(nodes, gone + {c} + {r});
    Unlift(entry, nodes, gone, c, r);
    SavedStays(h, nodes, was, Links(nodes), ids);
  }

  // ---------- the stack and the recorded prefixes ----------

  ghost predicate CallsOk<S, I, O>(h: seq<Entry<I, O>>, nodes: seq<Node<I, O>>, calls: seq<CallsEntry<I, O, S>>,
                                   ids: seq<int>, states: seq<S>)
    requires WellFormed(h) && ValidIds(h, ids) && |nodes| == |h| + 1
  {
    && |calls| == |ids| && |states| == |ids| + 1
    && forall i :: 0 <= i < |ids| ==>
         calls[i].entry == nodes[CallPos(h, ids[i]) + 1] && calls[i].entry.id == ids[i] && calls[i].state == states[i]
  }

  /** The ids on the stack. */
  method StackIds<S, I, O>(calls: seq<CallsEntry<I, O, S>>, ghost ids: seq<int>) returns (r: seq<int>)
    requires |calls| == |ids| && forall i :: 0 <= i < |ids| ==> calls[i].entry.id == ids[i]
    ensures r == ids
  {
    r := [];
    for i := 0 to |calls|
      invariant r == ids[..i]
    {
      r := r + [calls[i].entry.id];
    }
  }

  /** Before backtracking: every operation on the stack whose recorded prefix is shorter gets
      the stack, which is copied only when it is needed. */
  method RecordLongest<S, I, O>(longest: seq<Option<seq<int>>>, calls: seq<CallsEntry<I, O, S>>, ghost ids: seq<int>)
    returns (r: seq<Option<seq<int>>>)
    requires |calls| == |ids| && forall i :: 0 <= i < |ids| ==> calls[i].entry.id == ids[i]
    requires Distinct(ids) && forall i :: 0 <= i < |ids| ==> 0 <= ids[i] < |longest|
    ensures r == Record(longest, ids)
    ensures |r| == |longest| && forall j :: 0 <= j < |r| ==>
              r[j] == if j in ids && (longest[j].None? || |longest[j].value| < |ids|) then Some(ids) else longest[j]
  {
    r := longest;
    var copied: Option<seq<int>> := None;
    for i := 0 to |calls|
      invariant |r| == |longest|
      invariant copied.Some? ==> copied.value == ids
      invariant forall j :: 0 <= j < |r| ==> r[j] == if j in ids[..i] then Record(longest, ids)[j] else longest[j]
    {
      var id := calls[i].entry.id;
      assert id !in ids[..i];
      assert ids[..i + 1] == ids[..i] + [id];
      if r[id].None? || |calls| > |r[id].value| {
        if copied.None? {
          var s := StackIds(calls, ids);
          copied := Some(s);
        }
        r := r[id := copied];
      }
    }
    assert ids[..|ids|] == ids;
  }

  // ---------- the bitset ----------

  method MarkedClone(linearized: array<bv64>, id: nat, ghost done: set<int>) returns (b: array<bv64>)
    requires id < 64 * linearized.Length && Bitset.Denotes(linearized[..], done)
    ensures fresh(b) && b.Length == linearized.Length && Bitset.Denotes(b[..], done + {id})
  {
    b := Bitset.Clone(linearized);
    Bitset.Set(b, id);
  }

  // ---------- the search ----------

  /** The node at the cursor, and what the search reads from it. */
  lemma CursorNode<S, I, O>(m: Model<S, I, O>, h: seq<Entry<I, O>>, nodes: seq<Node<I, O>>, p: int)
    requires WellFormed(h) && Represents(h, nodes) && 0 <= p < |h|
    ensures nodes[p + 1].id == h[p].id && IsId(h, h[p].id)
    ensures h[p].Call? <==> nodes[p + 1].partner != null
    ensures h[p].Call? ==> CallPos(h, h[p].id) == p && nodes[p + 1].value.Input?
    ensures h[p].Call? ==> nodes[p + 1].partner.value.Output?
    ensures h[p].Call? ==> forall st ::
      StepOf(m, h, st, h[p].id) == m.step(st, nodes[p + 1].value.input, nodes[p + 1].partner.value.output)
  {
    assert Carries(h, nodes, p);
    if h[p].Call? {
      assert IsCall(h, p, h[p].id);
      assert Carries(h, nodes, ReturnPos(h, h[p].id));
    }
  }

  /** The list's pointer from place p + 1 leads to the search's next entry. */
  lemma FollowNext<I, O>(h: seq<Entry<I, O>>, nodes: seq<Node<I, O>>, ids: seq<int>, p: int)
    requires WellFormed(h) && ValidIds(h, ids) && ListOk(h, nodes, ids)
    requires -1 <= p < |h| && (p >= 0 ==> Remaining(h, Elements(ids), p))
    ensures nodes[p + 1].next == NodeAt(nodes, NextFrom(h, Elements(ids), p + 1) + 1)
  {
    NextIsAdjacent(h, Elements(ids), p);
  }

  /** The list, the cursor node and the stack represent the search's stack and cursor. */
  ghost predicate ListRep<S, I, O>(h: seq<Entry<I, O>>, nodes: seq<Node<I, O>>, entry: Node?<I, O>,
                                   calls: seq<CallsEntry<I, O, S>>, ids: seq<int>, states: seq<S>, cursor: int)
    requires WellFormed(h)
    reads nodes
  {
    && ValidIds(h, ids) && Distinct(ids)
    && ListOk(h, nodes, ids)
    && CallsOk(h, nodes, calls, ids, states)
    && 0 <= cursor <= |h| && entry == NodeAt(nodes, cursor + 1)
  }

  /** The bitset and the cache represent the linearized set and the configurations seen. */
  ghost predicate SetRep<S(!new)>(n: nat, linearized: array<bv64>, cache: Cache.Buckets<S>, meaning: Cache.Meaning<S>,
                                  repr: set<array<bv64>>, done: set<int>, seen: set<Config<S>>)
    reads linearized, repr
  {
    && linearized.Length == Bitset.Chunks(n) && linearized !in repr
    && Bitset.Denotes(linearized[..], done)
    && Cache.Valid(linearized.Length, cache, meaning, seen, repr)
  }

  /** Follows the list from a remaining call. */
  method Follow<S, I, O>(entry: Node<I, O>, ghost h: seq<Entry<I, O>>, ghost nodes: seq<Node<I, O>>,
                         ghost calls: seq<CallsEntry<I, O, S>>, ghost ids: seq<int>, ghost states: seq<S>, ghost p: int)
    returns (next: Node?<I, O>)
    requires WellFormed(h) && ListRep(h, nodes, entry, calls, ids, states, p)
    requires p < |h| && Remaining(h, Elements(ids), p)
    ensures ListRep(h, nodes, next, calls, ids, states, NextFrom(h, Elements(ids), p + 1))
  {
    FollowNext(h, nodes, ids, p);
    next := entry.next;
  }

  lemma CallsPush<S, I, O>(h: seq<Entry<I, O>>, nodes: seq<Node<I, O>>, calls: seq<CallsEntry<I, O, S>>,
                           ids: seq<int>, states: seq<S>, x: int, newState: S)
    requires WellFormed(h) && ValidIds(h, ids) && IsId(h, x)
    requires ListOk(h, nodes, ids) && CallsOk(h, nodes, calls, ids, states)
    ensures |nodes| == |h| + 1 && ValidIds(h, ids + [x])
    ensures CallsOk(h, nodes, calls + [CallsEntry(nodes[CallPos(h, x) + 1], states[|ids|])], ids + [x], states + [newState])
  {
    hide WellFormed, SavedOps, Linked;
    assert Carries(h, nodes, CallPos(h, x));
  }

  /** Pushes the call at the cursor, lifts it and starts over at the head. */
  method PushCall<S, I, O>(head: Node<I, O>, entry: Node<I, O>, state: S, ghost newState: S, calls: seq<CallsEntry<I, O, S>>,
                           ghost h: seq<Entry<I, O>>, ghost nodes: seq<Node<I, O>>, ghost ids: seq<int>, ghost states: seq<S>,
                           ghost x: int)
    returns (next: Node?<I, O>, calls': seq<CallsEntry<I, O, S>>)
    requires WellFormed(h) && IsId(h, x) && x !in ids && ListRep(h, nodes, entry, calls, ids, states, CallPos(h, x))
    requires nodes[0] == head && state == states[|ids|]
    modifies nodes
    ensures ListRep(h, nodes, next, calls', ids + [x], states + [newState], NextFrom(h, Elements(ids + [x]), 0))
  {
    hide WellFormed, ListOk, CallsOk, NextFrom;
    calls' := calls + [CallsEntry(entry, state)];
    CallsPush(h, nodes, calls, ids, states, x, newState);
    LiftOp(entry, h, nodes, ids, x);
    FollowNext(h, nodes, ids + [x], -1);
    next := head.next;
  }

  /** Pops the last call, unlifts it and goes on behind it. */
  method PopCall<S, I, O>(calls: seq<CallsEntry<I, O, S>>, ghost h: seq<Entry<I, O>>, ghost nodes: seq<Node<I, O>>,
                          ghost entry: Node?<I, O>, ghost ids: seq<int>, ghost states: seq<S>, ghost cursor: int)
    returns (next: Node?<I, O>, state: S, id: int, calls': seq<CallsEntry<I, O, S>>)
    requires WellFormed(h) && ListRep(h, nodes, entry, calls, ids, states, cursor) && calls != []
    modifies nodes
    ensures id == ids[|ids| - 1] && state == states[|ids| - 1]
    ensures IsId(h, id) && ListRep(h, nodes, next, calls', ids[..|ids| - 1], states[..|ids|],
                    NextFrom(h, Elements(ids[..|ids| - 1]), CallPos(h, id) + 1))
  {
    hide WellFormed, ListOk, NextFrom;
    var top := calls[|calls| - 1];
    id, state, calls' := top.entry.id, top.state, calls[..|calls| - 1];
    ghost var t := ids[..|ids| - 1];
    assert ids == t + [id];
    UnliftOp(top.entry, h, nodes, t, id);
    FollowNext(h, nodes, t, CallPos(h, id));
    next := top.entry.next;
  }

  /** Caches the clone with x and marks x in the bitset itself. */
  method MarkCall<S(==, !new)>(linearized: array<bv64>, newLinearized: array<bv64>, newState: S, cache: Cache.Buckets<S>, x: nat,
                               ghost n: nat, ghost meaning: Cache.Meaning<S>, ghost repr: set<array<bv64>>,
                               ghost done: set<int>, ghost seen: set<Config<S>>)
    returns (cache': Cache.Buckets<S>, ghost meaning': Cache.Meaning<S>, ghost repr': set<array<bv64>>)
    requires SetRep(n, linearized, cache, meaning, repr, done, seen) && x < n
    requires newLinearized != linearized && newLinearized.Length == linearized.Length
    requires Bitset.Denotes(newLinearized[..], done + {x})
    modifies linearized
    ensures repr' == repr + {newLinearized}
    ensures SetRep(n, linearized, cache', meaning', repr', done + {x}, seen + {Config(done + {x}, newState)})
  {
    hide Bitset.HashOf, Bitset.Has, Bitset.Denotes, Cache.Valid, Cache.Added;
    ghost var words := linearized[..];
    var hash := Bitset.Hash(newLinearized);
    var e := Cache.CacheEntry(newLinearized, newState);
    ghost var c := Config(done + {x}, newState);
    Cache.Inserted(linearized.Length, cache, meaning, seen, repr, e, c);
    cache' := Cache.Added(cache, hash, e);
    meaning', repr' := Cache.Added(meaning, hash, c), repr + {newLinearized};
    Bitset.Set(linearized, x);
    Bitset.DenotesWith(words, linearized[..], done, x);
  }

  method UnmarkCall<S(==, !new)>(linearized: array<bv64>, x: nat, ghost n: nat, ghost cache: Cache.Buckets<S>,
                                 ghost meaning: Cache.Meaning<S>, ghost repr: set<array<bv64>>,
                                 ghost done: set<int>, ghost seen: set<Config<S>>)
    requires SetRep(n, linearized, cache, meaning, repr, done + {x}, seen) && x < n && x !in done
    modifies linearized
    ensures SetRep(n, linearized, cache, meaning, repr, done, seen)
  {
    hide Bitset.Has, Bitset.Denotes, Cache.Valid;
    ghost var words := linearized[..];
    Bitset.Clear(linearized, x);
    Bitset.DenotesWithout(words, linearized[..], done, x);
  }

  /** The list, the head and the cursor of a history before the search. */
  method BuildList<S, I, O>(history: seq<Entry<I, O>>, ghost init: S)
    returns (entry: Node?<I, O>, head: Node<I, O>, n: nat, ghost nodes: seq<Node<I, O>>)
    requires WellFormed(history)
    ensures n == |history| / 2 && fresh(nodes) && |nodes| > 0 && nodes[0] == head
    ensures ListRep(history, nodes, entry, [], [], [init], 0)
  {
    ghost var built;
    entry, built := MakeLinkedEntries(history);
    var length := Length(entry, built);
    n := length / 2;
    head := new Node<I, O>(NoValue, null, -1);
    head := Prepend(head, built, entry);
    nodes := [head] + built;
    BuiltRepresents(history, built, head);
    ChainIsLinked(nodes);
    assert Gone(history, Elements([])) == {};
  }

  /** The list is empty exactly when every operation is linearized. */
  lemma EmptyList<I, O>(h: seq<Entry<I, O>>, nodes: seq<Node<I, O>>, ids: seq<int>)
    requires WellFormed(h) && ValidIds(h, ids) && Distinct(ids) && ListOk(h, nodes, ids)
    ensures nodes[0].next == null <==> |ids| == |h| / 2
  {
    FollowNext(h, nodes, ids, -1);
    var q := NextFrom(h, Elements(ids), 0);
    if q < |h| {
      SomethingRemains(h, ids, q);
    } else {
      NothingRemains(h, ids);
    }
  }

  lemma CursorEnd<S, I, O>(m: Model<S, I, O>, h: seq<Entry<I, O>>, partials: bool, a: Search<S>)
    requires WellFormed(h) && Inv(m, h, partials, a)
    ensures a.cursor == |h| <==> |a.ids| == |h| / 2
    ensures |a.states| == |a.ids| + 1 && |a.longest| == |h| / 2 && 0 <= a.cursor <= |h|
    ensures a.cursor < |h| ==> Remaining(h, a.Done(), a.cursor)
  {
    if a.cursor < |h| {
      SomethingRemains(h, a.ids, a.cursor);
    }
  }

  /** What the list says: it is empty exactly when all operations are linearized, the stack
      holds their ids, and `entry` is the node at the cursor. */
  lemma ListFacts<S, I, O>(h: seq<Entry<I, O>>, nodes: seq<Node<I, O>>, entry: Node?<I, O>,
                           calls: seq<CallsEntry<I, O, S>>, ids: seq<int>, states: seq<S>, cursor: int)
    requires WellFormed(h) && ListRep(h, nodes, entry, calls, ids, states, cursor)
    ensures |nodes| == |h| + 1 && Represents(h, nodes) && (nodes[0].next == null <==> |ids| == |h| / 2)
    ensures |calls| == |ids| && Distinct(ids)
    ensures forall i :: 0 <= i < |ids| ==> 0 <= ids[i] < |h| / 2 && calls[i].entry.id == ids[i]
    ensures entry == NodeAt(nodes, cursor + 1)
  {
    hide Linked, SavedOps, Gone;
    EmptyList(h, nodes, ids);
  }

  /** What a turn may rely on: the list is empty exactly when nothing remains, and otherwise
      the node at the cursor carries the entry at the cursor. */
  lemma TurnFacts<S, I, O>(m: Model<S, I, O>, h: seq<Entry<I, O>>, partials: bool, nodes: seq<Node<I, O>>,
                           entry: Node?<I, O>, calls: seq<CallsEntry<I, O, S>>, a: Search<S>)
    requires WellFormed(h) && Inv(m, h, partials, a) && ListRep(h, nodes, entry, calls, a.ids, a.states, a.cursor)
    ensures |nodes| > 0 && (nodes[0].next == null <==> a.cursor == |h|)
    ensures |a.states| == |a.ids| + 1 && |calls| == |a.ids| && Distinct(a.ids) && |a.longest| == |h| / 2
    ensures forall i :: 0 <= i < |a.ids| ==> 0 <= a.ids[i] < |h| / 2 && calls[i].entry.id == a.ids[i]
    ensures 0 <= a.cursor <= |h|
    ensures a.State() == a.states[|a.ids|] && a.Done() == Elements(a.ids)
    ensures a.cursor < |h| ==> Remaining(h, a.Done(), a.cursor) && entry != null && entry == nodes[a.cursor + 1]
    ensures a.cursor < |h| ==> entry.id == h[a.cursor].id && 0 <= entry.id < |h| / 2 && IsId(h, entry.id)
    ensures a.cursor < |h| ==> (h[a.cursor].Call? <==> entry.partner != null)
    ensures a.cursor < |h| && entry.partner != null ==>
      && entry.value.Input? && entry.partner.value.Output?
      && entry.id !in a.ids && CallPos(h, entry.id) == a.cursor
      && StepOf(m, h, a.State(), entry.id) == m.step(a.State(), entry.value.input, entry.partner.value.output)
  {
    hide Inv, ListRep, Represents, WellFormed, StepOf, Distinct;
    CursorEnd(m, h, partials, a);
    ListFacts(h, nodes, entry, calls, a.ids, a.states, a.cursor);
    if a.cursor < |h| {
      CursorNode(m, h, nodes, a.cursor);
    }
  }

  // ---------- the three ways to stop ----------

  lemma KilledVerdict<S, I, O>(m: Model<S, I, O>, h: seq<Entry<I, O>>, partials: bool, a: Search<S>)
    requires WellFormed(h) && Inv(m, h, partials, a)
    ensures Verdict(m, h, partials, true, false, a.longest)
  {
  }

  lemma StuckVerdict<S, I, O>(m: Model<S, I, O>, h: seq<Entry<I, O>>, partials: bool, a: Search<S>)
    requires WellFormed(h) && Inv(m, h, partials, a) && a.cursor < |h| && h[a.cursor].Return? && a.ids == []
    ensures Verdict(m, h, partials, false, false, a.longest)
  {
    CompleteStop(m, h, partials, a);
    if partials {
      forall s, j | IsPartial(m, h, s) && j in s
        ensures 0 <= j < |a.longest| && a.longest[j].Some? && |a.longest[j].value| >= |s|
      {
        LongestStop(m, h, a, s, j);
      }
    }
  }

  lemma DoneVerdict<S, I, O>(m: Model<S, I, O>, h: seq<Entry<I, O>>, partials: bool, a: Search<S>, longest: seq<Option<seq<int>>>)
    requires WellFormed(h) && Inv(m, h, partials, a) && a.cursor == |h|
    requires |longest| == |h| / 2 && forall j :: 0 <= j < |longest| ==> longest[j] == Some(a.ids)
    ensures Verdict(m, h, partials, false, true, longest)
  {
    hide Inv, WellFormed, Precedes, Exec;
    SoundStop(m, h, partials, a);
    LinearizationIsPartial(m, h, a.ids);
    AllOccur(a.ids, |h| / 2);
  }

  lemma StartRep<S(!new)>(n: nat, linearized: array<bv64>)
    requires linearized.Length == Bitset.Chunks(n) && Bitset.Denotes(linearized[..], {})
    ensures SetRep<S>(n, linearized, map[], map[], {}, {}, {})
  {
  }

  lemma SetRepFacts<S(!new)>(n: nat, linearized: array<bv64>, cache: Cache.Buckets<S>, meaning: Cache.Meaning<S>,
                             repr: set<array<bv64>>, done: set<int>, seen: set<Config<S>>)
    requires SetRep(n, linearized, cache, meaning, repr, done, seen)
    ensures n <= 64 * linearized.Length && Bitset.Denotes(linearized[..], done)
    ensures Cache.Valid(linearized.Length, cache, meaning, seen, repr)
  {
  }

  /** One turn at a call: try it, and push it or pass it over. */
  method CallTurn<S(==, !new), I, O>(
      model: Model<S, I, O>, ghost h: seq<Entry<I, O>>, ghost partials: bool, ghost n: nat, ghost nodes: seq<Node<I, O>>,
      head: Node<I, O>, linearized: array<bv64>, entry: Node<I, O>, state: S, calls: seq<CallsEntry<I, O, S>>,
      cache: Cache.Buckets<S>, ghost meaning: Cache.Meaning<S>, ghost repr: set<array<bv64>>, ghost a: Search<S>)
    returns (entry': Node?<I, O>, state': S, calls': seq<CallsEntry<I, O, S>>, cache': Cache.Buckets<S>,
             ghost meaning': Cache.Meaning<S>, ghost repr': set<array<bv64>>, ghost b: Search<S>)
    requires WellFormed(h) && n == |h| / 2 && Inv(model, h, partials, a)
    requires ListRep(h, nodes, entry, calls, a.ids, a.states, a.cursor) && |nodes| > 0 && nodes[0] == head
    requires SetRep(n, linearized, cache, meaning, repr, a.Done(), a.seen)
    requires a.states != [] && state == a.State() && a.cursor < |h| && entry.partner != null
    modifies nodes, linearized
    ensures Inv(model, h, partials, b)
    ensures ListRep(h, nodes, entry', calls', b.ids, b.states, b.cursor)
    ensures SetRep(n, linearized, cache', meaning', repr', b.Done(), b.seen)
    ensures b.states != [] && state' == b.State() && b.longest == a.longest
    ensures Reach(model, h, n) - b.seen < Reach(model, h, n) - a.seen
         || (b.seen == a.seen && |b.ids| == |a.ids| && a.cursor < b.cursor <= |h|)
  {
    hide *;
    TurnFacts(model, h, partials, nodes, entry, calls, a);
    SetRepFacts(n, linearized, cache, meaning, repr, a.Done(), a.seen);
    state', calls', cache', meaning', repr' := state, calls, cache, meaning, repr;
    var (good, newState) := model.step(state, entry.value.input, entry.partner.value.output);
    if good {
      var newLinearized := MarkedClone(linearized, entry.id, a.Done());
      var found := Cache.Contains(cache, newLinearized, newState, a.Done() + {entry.id}, meaning, a.seen, repr);
      if !found {
        b := PushTurn(model, h, partials, a, entry.id, newState);
        cache', meaning', repr' := MarkCall(linearized, newLinearized, newState, cache, entry.id, n, meaning, repr, a.Done(), a.seen);
        entry', calls' := PushCall(head, entry, state, newState, calls, h, nodes, a.ids, a.states, entry.id);
        state' := newState;
        return;
      }
    }
    b := AdvanceTurn(model, h, partials, a, entry.id, newState);
    entry' := Follow(entry, h, nodes, calls, a.ids, a.states, a.cursor);
  }

  /** One turn at a return: record the stack and backtrack. */
  method ReturnTurn<S(==, !new), I, O>(
      ghost model: Model<S, I, O>, ghost h: seq<Entry<I, O>>, partials: bool, ghost n: nat, ghost nodes: seq<Node<I, O>>,
      linearized: array<bv64>, ghost entry: Node<I, O>, calls: seq<CallsEntry<I, O, S>>, longest: seq<Option<seq<int>>>,
      ghost cache: Cache.Buckets<S>, ghost meaning: Cache.Meaning<S>, ghost repr: set<array<bv64>>, ghost a: Search<S>)
    returns (entry': Node?<I, O>, state': S, calls': seq<CallsEntry<I, O, S>>, longest': seq<Option<seq<int>>>, ghost b: Search<S>)
    requires WellFormed(h) && n == |h| / 2 && Inv(model, h, partials, a) && longest == a.longest
    requires ListRep(h, nodes, entry, calls, a.ids, a.states, a.cursor)
    requires SetRep(n, linearized, cache, meaning, repr, a.Done(), a.seen)
    requires a.cursor < |h| && entry.partner == null && |calls| > 0
    modifies nodes, linearized
    ensures Inv(model, h, partials, b)
    ensures ListRep(h, nodes, entry', calls', b.ids, b.states, b.cursor)
    ensures SetRep(n, linearized, cache, meaning, repr, b.Done(), b.seen)
    ensures b.states != [] && state' == b.State() && b.longest == longest' && (!partials ==> longest' == longest)
    ensures b.seen == a.seen && |b.ids| < |a.ids|
  {
    hide *;
    TurnFacts(model, h, partials, nodes, entry, calls, a);
    b := PopTurn(model, h, partials, a);
    longest' := longest;
    if partials {
      longest' := RecordLongest(longest, calls, a.ids);
    }
    var id;
    entry', state', id, calls' := PopCall(calls, h, nodes, entry, a.ids, a.states, a.cursor);
    UnmarkCall(linearized, id, n, cache, meaning, repr, b.Done(), a.seen);
  }

  /** The checker. It reads the kill flag once per turn; `kill(i)` is what the i-th read gives. */
  method CheckSingle<S(==, !new), I, O>(model: Model<S, I, O>, history: seq<Entry<I, O>>, computePartial: bool,
                                        kill: nat -> bool)
    returns (ok: bool, longest: seq<Option<seq<int>>>, killed: bool)
    requires WellFormed(history)
    ensures Verdict(model, history, computePartial, killed, ok, longest)
    ensures killed ==> exists i :: kill(i)
    ensures kill(0) && history != [] ==> killed && !ok
    ensures !ok && !computePartial ==> forall j :: 0 <= j < |longest| ==> longest[j] == None
  {
    hide *;
    ghost var h := history;
    var state := model.init;
    var entry, head, n, nodes := BuildList(history, state);
    var linearized := Bitset.New(n);
    var cache: Cache.Buckets<S> := map[];
    var calls: seq<CallsEntry<I, O, S>> := [];
    longest := seq(n, _ => None);
    var loads := 0;
    ghost var a := Search([], [state], 0, {}, longest);
    ghost var meaning: Cache.Meaning<S>, repr: set<array<bv64>> := map[], {};
    StartTurn(model, h, computePartial, a);
    StartRep<S>(n, linearized);
    while head.next != null
      invariant Inv(model, h, computePartial, a)
      invariant ListRep(h, nodes, entry, calls, a.ids, a.states, a.cursor) && |nodes| > 0 && nodes[0] == head
      invariant SetRep(n, linearized, cache, meaning, repr, a.Done(), a.seen)
      invariant a.states != [] && state == a.State() && longest == a.longest
      invariant !computePartial ==> forall j :: 0 <= j < |longest| ==> longest[j] == None
      invariant fresh(nodes) && fresh(linearized)
      invariant if loads == 0 then a.cursor == 0 else !kill(0)
      decreases Reach(model, h, |h| / 2) - a.seen, |a.ids|, |h| - a.cursor
    {
      if kill(loads) {
        KilledVerdict(model, h, computePartial, a);
        return false, longest, true;
      }
      loads := loads + 1;
      TurnFacts(model, h, computePartial, nodes, entry, calls, a);
      if entry.partner != null {
        entry, state, calls, cache, meaning, repr, a := CallTurn(
          model, h, computePartial, n, nodes, head, linearized, entry, state, calls, cache, meaning, repr, a);
      } else if |calls| == 0 {
        StuckVerdict(model, h, computePartial, a);
        return false, longest, false;
      } else {
        entry, state, calls, longest, a := ReturnTurn(
          model, h, computePartial, n, nodes, linearized, entry, calls, longest, cache, meaning, repr, a);
      }
    }
    TurnFacts(model, h, computePartial, nodes, entry, calls, a);
    var s := StackIds(calls, a.ids);
    longest := seq(n, _ => Some(s));
    DoneVerdict(model, h, computePartial, a, longest);
    return true, longest, false;
  }

  lemma StartTurn<S, I, O>(m: Model<S, I, O>, h: seq<Entry<I, O>>, partials: bool, a: Search<S>)
    requires WellFormed(h) && a == Search([], [m.init], 0, {}, seq(|h| / 2, _ => None))
    ensures Inv(m, h, partials, a) && a.Done() == {} && a.State() == m.init
  {
    StartInv(m, h, partials);
  }

  // ---------- there is always an answer ----------

  lemma EntryId<I, O>(h: seq<Entry<I, O>>, p: int)
    requires WellFormed(h) && 0 <= p < |h|
    ensures IsId(h, h[p].id)
  {
  }

  /** From wherever the search is, its turns lead to an answer. */
  lemma {:induction false} AnswerFrom<S, I, O>(m: Model<S, I, O>, h: seq<Entry<I, O>>, partials: bool, a: Search<S>)
    returns (ok: bool, longest: seq<Option<seq<int>>>)
    requires WellFormed(h) && Inv(m, h, partials, a)
    ensures Verdict(m, h, partials, false, ok, longest)
    decreases Reach(m, h, |h| / 2) - a.seen, |a.ids|, |h| - a.cursor
  {
    hide *;
    CursorEnd(m, h, partials, a);
    var b: Search<S>;
    if a.cursor == |h| {
      ok, longest := true, seq(|h| / 2, _ => Some(a.ids));
      DoneVerdict(m, h, partials, a, longest);
      return;
    } else if h[a.cursor].Call? {
      EntryId(h, a.cursor);
      var x := h[a.cursor].id;
      var (good, next) := StepOf(m, h, a.State(), x);
      if good && Config(a.Done() + {x}, next) !in a.seen {
        b := PushTurn(m, h, partials, a, x, next);
      } else {
        b := AdvanceTurn(m, h, partials, a, x, next);
      }
    } else if a.ids == [] {
      StuckVerdict(m, h, partials, a);
      ok, longest := false, a.longest;
      return;
    } else {
      b := PopTurn(m, h, partials, a);
    }
    ok, longest := AnswerFrom(m, h, partials, b);
  }

  /** Every well-formed history has an answer that no kill is needed for. */
  lemma AnswerExists<S, I, O>(m: Model<S, I, O>, h: seq<Entry<I, O>>, partials: bool)
    returns (ok: bool, longest: seq<Option<seq<int>>>)
    requires WellFormed(h)
    ensures Verdict(m, h, partials, false, ok, longest)
  {
    hide *;
    var a := Search([], [m.init], 0, {}, seq(|h| / 2, _ => None));
    StartTurn(m, h, partials, a);
    ok, longest := AnswerFrom(m, h, partials, a);
  }

  /** An answer that was not killed, with partials, has for each operation a longest prefix. */
  lemma UnkilledIsLongest<S, I, O>(m: Model<S, I, O>, h: seq<Entry<I, O>>, ok: bool, longest: seq<Option<seq<int>>>)
    requires WellFormed(h) && Verdict(m, h, true, false, ok, longest)
    ensures LongestPossible(m, h, longest)
  {
    if ok {
      hide Exec, WellFormed;
      forall s, j | IsPartial(m, h, s) && j in s
        ensures 0 <= j < |longest| && longest[j].Some? && |longest[j].value| >= |s|
      {
        PartialSize(m, h, s);
      }
    }
  }
}
