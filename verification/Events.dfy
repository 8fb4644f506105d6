/** Histories given as events: renumbering their ids and turning them into entries. */
module Events {
  import opened Collections
  import opened Linearizability

  datatype Event<I, O> =
    | CallEvent(clientId: int, input: I, id: int)
    | ReturnEvent(clientId: int, output: O, id: int)

  function WithId<I, O>(e: Event<I, O>, id: int): Event<I, O>
  {
    e.(id := id)
  }

  /** Each id has exactly one call, followed by exactly one return; ids are arbitrary. */
  ghost predicate PairedEvents<I, O>(events: seq<Event<I, O>>)
  {
    && (forall p, q :: 0 <= p < q < |events| && events[p].id == events[q].id ==> events[p].CallEvent? != events[q].CallEvent?)
    && (forall p :: 0 <= p < |events| ==> HasPair(events, events[p].id))
  }

  ghost predicate HasPair<I, O>(events: seq<Event<I, O>>, id: int)
  {
    exists c, r :: 0 <= c < r < |events| && events[c].CallEvent? && events[r].ReturnEvent?
                   && events[c].id == id && events[r].id == id
  }

  /** The same events under ids 0..n-1, two of them equal exactly when they were before. */
  ghost predicate Renumbered<I, O>(events: seq<Event<I, O>>, e: seq<Event<I, O>>, n: int)
  {
    && 0 <= n && |e| == |events|
    && (forall i :: 0 <= i < |e| ==> 0 <= e[i].id < n && e[i] == WithId(events[i], e[i].id))
    && (forall i, j :: 0 <= i < |e| && 0 <= j < |e| ==> (e[i].id == e[j].id <==> events[i].id == events[j].id))
    && (forall v :: 0 <= v < n ==> Occurs(e, v))
  }

  ghost predicate Occurs<I, O>(e: seq<Event<I, O>>, v: int)
  {
    exists i :: 0 <= i < |e| && e[i].id == v
  }

  ghost predicate Taken(m: map<int, int>, v: int)
  {
    exists k :: k in m && m[k] == v
  }

  /** The renumbering map so far: it has the ids seen, and is one-to-one onto 0..n-1. */
  ghost predicate Numbering<I, O>(events: seq<Event<I, O>>, m: map<int, int>, n: int)
  {
    && 0 <= n
    && (forall i :: 0 <= i < |events| ==> events[i].id in m)
    && (forall k :: k in m ==> 0 <= m[k] < n && exists i :: 0 <= i < |events| && events[i].id == k)
    && (forall k, l :: k in m && l in m && m[k] == m[l] ==> k == l)
    && (forall v :: 0 <= v < n ==> Taken(m, v))
  }

  lemma NumberingNew<I, O>(events: seq<Event<I, O>>, m: map<int, int>, n: int, e: Event<I, O>)
    requires Numbering(events, m, n) && e.id !in m
    ensures Numbering(events + [e], m[e.id := n], n + 1)
  {
    var m' := m[e.id := n];
    assert (events + [e])[|events|] == e;
    forall k | k in m' ensures 0 <= m'[k] < n + 1 && exists i :: 0 <= i < |events + [e]| && (events + [e])[i].id == k {
      if k != e.id {
        var i :| 0 <= i < |events| && events[i].id == k;
        assert (events + [e])[i].id == k;
      }
    }
    forall v | 0 <= v < n + 1 ensures Taken(m', v) {
      if v < n {
        assert Taken(m, v);
        var k :| k in m && m[k] == v;
        assert m'[k] == v;
      } else {
        assert m'[e.id] == v;
      }
    }
  }

  lemma NumberingOld<I, O>(events: seq<Event<I, O>>, m: map<int, int>, n: int, e: Event<I, O>)
    requires Numbering(events, m, n) && e.id in m
    ensures Numbering(events + [e], m, n)
  {
    forall k | k in m ensures exists i :: 0 <= i < |events + [e]| && (events + [e])[i].id == k {
      var i :| 0 <= i < |events| && events[i].id == k;
      assert (events + [e])[i].id == k;
    }
  }

  lemma NumberingRenumbers<I, O>(events: seq<Event<I, O>>, e: seq<Event<I, O>>, m: map<int, int>, n: int)
    requires Numbering(events, m, n) && |e| == |events|
    requires forall i :: 0 <= i < |e| ==> events[i].id in m && e[i] == WithId(events[i], m[events[i].id])
    ensures Renumbered(events, e, n)
  {
    forall v | 0 <= v < n ensures Occurs(e, v) {
      assert Taken(m, v);
      var k :| k in m && m[k] == v;
      var i :| 0 <= i < |events| && events[i].id == k;
      assert e[i].id == v;
    }
  }

  method Renumber<I, O>(events: seq<Event<I, O>>) returns (e: seq<Event<I, O>>, n: int)
    ensures Renumbered(events, e, n)
    ensures forall i :: 0 <= i < |e| ==>
              && i < |events| && e[i].clientId == events[i].clientId
              && (events[i].CallEvent? ==> e[i].CallEvent? && e[i].input == events[i].input)
              && (events[i].ReturnEvent? ==> e[i].ReturnEvent? && e[i].output == events[i].output)
  {
    hide Numbering, Renumbered;
    e := [];
    var m: map<int, int> := map[];
    n := 0;
    NumberingStart<I, O>();
    for i := 0 to |events|
      invariant Numbering(events[..i], m, n) && |e| == i
      invariant forall j :: 0 <= j < i ==> events[j].id in m && e[j] == WithId(events[j], m[events[j].id])
    {
      var v := events[i];
      assert events[..i + 1] == events[..i] + [v];
      if v.id in m {
        NumberingOld(events[..i], m, n, v);
        e := e + [WithId(v, m[v.id])];
      } else {
        NumberingNew(events[..i], m, n, v);
        e := e + [WithId(v, n)];
        m := m[v.id := n];
        n := n + 1;
      }
    }
    assert events[..|events|] == events;
    NumberingRenumbers(events, e, m, n);
  }

  lemma NumberingStart<I, O>()
    ensures Numbering<I, O>([], map[], 0)
  {
  }

  function Converted<I, O>(e: Event<I, O>, i: int): Entry<I, O>
  {
    if e.CallEvent? then Call(e.input, e.id, i, e.clientId) else Return(e.output, e.id, i, e.clientId)
  }

  /** The index serves as the time. */
  method ConvertEntries<I, O>(events: seq<Event<I, O>>) returns (entries: seq<Entry<I, O>>)
    ensures |entries| == |events| && forall i :: 0 <= i < |events| ==> entries[i] == Converted(events[i], i)
    ensures forall i :: 0 <= i < |events| ==>
              && entries[i].id == events[i].id && entries[i].time == i && entries[i].clientId == events[i].clientId
              && (events[i].CallEvent? ==> entries[i].Call? && entries[i].input == events[i].input)
              && (events[i].ReturnEvent? ==> entries[i].Return? && entries[i].output == events[i].output)
  {
    entries := [];
    for i := 0 to |events|
      invariant |entries| == i && forall j :: 0 <= j < i ==> entries[j] == Converted(events[j], j)
    {
      entries := entries + [Converted(events[i], i)];
    }
  }

  // ---------- the entries are well-formed ----------

  lemma {:induction false} SameImageSize<T, U>(s: set<T>, t: set<U>, f: T -> U)
    requires forall x :: x in s ==> f(x) in t
    requires forall x, y :: x in s && y in s && f(x) == f(y) ==> x == y
    requires forall v :: v in t ==> exists x :: x in s && f(x) == v
    ensures |s| == |t|
    decreases |s|
  {
    if |s| != 0 {
      var x :| x in s;
      forall v | v in t - {f(x)} ensures exists y :: y in s - {x} && f(y) == v {
        var y :| y in s && f(y) == v;
        assert y in s - {x};
      }
      SameImageSize(s - {x}, t - {f(x)}, f);
    } else {
      assert t == {};
    }
  }

  lemma PairOf<I, O>(events: seq<Event<I, O>>, e: seq<Event<I, O>>, n: int, v: int) returns (c: int, r: int)
    requires PairedEvents(events) && Renumbered(events, e, n) && 0 <= v < n
    ensures 0 <= c < r < |e| && e[c].CallEvent? && e[r].ReturnEvent? && e[c].id == v && e[r].id == v
  {
    assert Occurs(e, v);
    var i :| 0 <= i < |e| && e[i].id == v;
    assert HasPair(events, events[i].id);
    c, r :| 0 <= c < r < |events| && events[c].CallEvent? && events[r].ReturnEvent?
            && events[c].id == events[i].id && events[r].id == events[i].id;
    assert e[c].id == v && e[r].id == v;
  }

  lemma OneOfEach<I, O>(events: seq<Event<I, O>>, e: seq<Event<I, O>>, n: int, p: int, q: int)
    requires PairedEvents(events) && Renumbered(events, e, n)
    requires 0 <= p < |e| && 0 <= q < |e| && e[p].id == e[q].id && e[p].CallEvent? == e[q].CallEvent?
    ensures p == q
  {
    assert events[p].id == events[q].id;
    assert e[p] == WithId(events[p], e[p].id) && e[q] == WithId(events[q], e[q].id);
  }

  /** As many calls as ids, or as many returns. */
  lemma CountKind<I, O>(events: seq<Event<I, O>>, e: seq<Event<I, O>>, n: int, call: bool, places: set<int>)
    requires PairedEvents(events) && Renumbered(events, e, n)
    requires places == set p | 0 <= p < |e| && e[p].CallEvent? == call
    ensures |places| == n
  {
    hide PairedEvents;
    var f := p => if 0 <= p < |e| then e[p].id else -1;
    forall v | v in Range(n) ensures exists p :: p in places && f(p) == v {
      var c, r := PairOf(events, e, n, v);
      assert if call then c in places && f(c) == v else r in places && f(r) == v;
    }
    forall p, q | p in places && q in places && f(p) == f(q) ensures p == q {
      OneOfEach(events, e, n, p, q);
    }
    SameImageSize(places, Range(n), f);
  }

  lemma CountEntries<I, O>(events: seq<Event<I, O>>, e: seq<Event<I, O>>, n: int)
    requires PairedEvents(events) && Renumbered(events, e, n)
    ensures |e| == 2 * n
  {
    hide PairedEvents, Renumbered;
    var calls := set p | 0 <= p < |e| && e[p].CallEvent? == true;
    var rets := set p | 0 <= p < |e| && e[p].CallEvent? == false;
    CountKind(events, e, n, true, calls);
    CountKind(events, e, n, false, rets);
    assert calls + rets == Range(|e|);
    assert |calls + rets| == |calls| + |rets|;
  }

  /** Renumbering and converting paired events gives a well-formed history with the same order. */
  lemma EventsWellFormed<I, O>(events: seq<Event<I, O>>, e: seq<Event<I, O>>, n: int, h: seq<Entry<I, O>>)
    requires PairedEvents(events) && Renumbered(events, e, n)
    requires |h| == |e| && forall i :: 0 <= i < |e| ==> h[i] == Converted(e[i], i)
    ensures WellFormed(h) && |h| / 2 == n
  {
    CountEntries(events, e, n);
    hide PairedEvents;
    forall id | 0 <= id < n ensures Paired(h, id) {
      var c, r := PairOf(events, e, n, id);
      assert IsCall(h, c, id) && IsReturn(h, r, id);
    }
    forall id, p, q | IsCall(h, p, id) && IsCall(h, q, id) ensures p == q {
      OneOfEach(events, e, n, p, q);
    }
    forall id, p, q | IsReturn(h, p, id) && IsReturn(h, q, id) ensures p == q {
      OneOfEach(events, e, n, p, q);
    }
  }
}
