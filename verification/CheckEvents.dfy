/** The whole checker on a history of events, checked as one partition. */
module CheckEvents {
  import opened Collections
  import opened Linearizability
  import opened Events
  import Parallel

  // ---------- linearizability of events, under their own ids ----------

  ghost function CallAt<I, O>(events: seq<Event<I, O>>, id: int): (c: int)
    requires HasPair(events, id)
    ensures 0 <= c < |events| && events[c].CallEvent? && events[c].id == id
  {
    var c, r :| 0 <= c < r < |events| && events[c].CallEvent? && events[r].ReturnEvent?
                && events[c].id == id && events[r].id == id;
    c
  }

  ghost function ReturnAt<I, O>(events: seq<Event<I, O>>, id: int): (r: int)
    requires HasPair(events, id)
    ensures 0 <= r < |events| && events[r].ReturnEvent? && events[r].id == id
  {
    var c, r :| 0 <= c < r < |events| && events[c].CallEvent? && events[r].ReturnEvent?
                && events[c].id == id && events[r].id == id;
    r
  }

  ghost predicate AllPairs<I, O>(events: seq<Event<I, O>>, s: seq<int>)
  {
    forall i :: 0 <= i < |s| ==> HasPair(events, s[i])
  }

  /** The state after the operations with these ids, in order, or None if one is not allowed. */
  ghost function ExecEvents<S, I, O>(m: Model<S, I, O>, events: seq<Event<I, O>>, s: seq<int>): Option<S>
    requires AllPairs(events, s)
  {
    if s == [] then Some(m.init) else
      var id := s[|s| - 1];
      match ExecEvents(m, events, s[..|s| - 1])
      case None => None
      case Some(st) =>
        var (ok, next) := m.step(st, events[CallAt(events, id)].input, events[ReturnAt(events, id)].output);
        if ok then Some(next) else None
  }

  /** Nothing is placed before an operation whose return comes before its call. */
  ghost predicate InOrder<I, O>(events: seq<Event<I, O>>, s: seq<int>)
    requires AllPairs(events, s)
  {
    forall i, j :: 0 <= i < j < |s| ==> !(ReturnAt(events, s[j]) < CallAt(events, s[i]))
  }

  /** A legal order of all ids that respects the order of the events. */
  ghost predicate IsEventOrder<S, I, O>(m: Model<S, I, O>, events: seq<Event<I, O>>, s: seq<int>)
  {
    && AllPairs(events, s) && Distinct(s)
    && (forall p :: 0 <= p < |events| ==> events[p].id in s)
    && ExecEvents(m, events, s).Some?
    && InOrder(events, s)
  }

  ghost predicate LinearizableEvents<S, I, O>(m: Model<S, I, O>, events: seq<Event<I, O>>)
  {
    exists s :: IsEventOrder(m, events, s)
  }

  // ---------- renumbering keeps it ----------

  /** The entries h are the renumbered events e, converted. */
  ghost predicate Entered<I, O>(events: seq<Event<I, O>>, e: seq<Event<I, O>>, n: int, h: seq<Entry<I, O>>)
  {
    && PairedEvents(events) && Renumbered(events, e, n)
    && |h| == |e| && (forall i :: 0 <= i < |e| ==> h[i] == Converted(e[i], i))
    && WellFormed(h) && |h| / 2 == n
  }

  /** The id an operation had before. */
  ghost function OldId<I, O>(events: seq<Event<I, O>>, e: seq<Event<I, O>>, n: int, h: seq<Entry<I, O>>, v: int): int
    requires Entered(events, e, n, h) && IsId(h, v)
  {
    events[CallPos(h, v)].id
  }

  lemma OldIdAt<I, O>(events: seq<Event<I, O>>, e: seq<Event<I, O>>, n: int, h: seq<Entry<I, O>>, v: int)
    requires Entered(events, e, n, h) && IsId(h, v)
    ensures var id := OldId(events, e, n, h, v);
            && HasPair(events, id) && CallAt(events, id) == CallPos(h, v) && ReturnAt(events, id) == ReturnPos(h, v)
            && events[CallPos(h, v)].CallEvent? && h[CallPos(h, v)].input == events[CallPos(h, v)].input
            && events[ReturnPos(h, v)].ReturnEvent? && h[ReturnPos(h, v)].output == events[ReturnPos(h, v)].output
  {
    hide WellFormed;
    var c, r := CallPos(h, v), ReturnPos(h, v);
    var id := events[c].id;
    assert e[c] == WithId(events[c], e[c].id) && e[r] == WithId(events[r], e[r].id);
    assert HasPair(events, id);
    assert events[r].id == id;
    OneOfEach(events, e, n, c, CallAt(events, id));
    OneOfEach(events, e, n, r, ReturnAt(events, id));
  }

  lemma OldIdInjective<I, O>(events: seq<Event<I, O>>, e: seq<Event<I, O>>, n: int, h: seq<Entry<I, O>>, v: int, w: int)
    requires Entered(events, e, n, h) && IsId(h, v) && IsId(h, w) && OldId(events, e, n, h, v) == OldId(events, e, n, h, w)
    ensures v == w
  {
    assert e[CallPos(h, v)].id == v && e[CallPos(h, w)].id == w;
  }

  /** Every id that occurs is the old id of the new id at that place. */
  lemma OldIdOf<I, O>(events: seq<Event<I, O>>, e: seq<Event<I, O>>, n: int, h: seq<Entry<I, O>>, p: int)
    requires Entered(events, e, n, h) && 0 <= p < |events|
    ensures IsId(h, e[p].id) && OldId(events, e, n, h, e[p].id) == events[p].id
  {
    assert e[CallPos(h, e[p].id)].id == e[p].id;
  }

  ghost function OldIds<I, O>(events: seq<Event<I, O>>, e: seq<Event<I, O>>, n: int, h: seq<Entry<I, O>>, s: seq<int>)
    : (r: seq<int>)
    requires Entered(events, e, n, h) && ValidIds(h, s)
    ensures |r| == |s| && forall i :: 0 <= i < |s| ==> r[i] == OldId(events, e, n, h, s[i])
  {
    seq(|s|, i requires 0 <= i < |s| => OldId(events, e, n, h, s[i]))
  }

  lemma {:induction false} SameExec<S, I, O>(m: Model<S, I, O>, events: seq<Event<I, O>>, e: seq<Event<I, O>>, n: int,
                                            h: seq<Entry<I, O>>, s: seq<int>)
    requires Entered(events, e, n, h) && ValidIds(h, s)
    ensures AllPairs(events, OldIds(events, e, n, h, s))
    ensures Exec(m, h, s) == ExecEvents(m, events, OldIds(events, e, n, h, s))
    decreases |s|
  {
    hide Entered;
    var old' := OldIds(events, e, n, h, s);
    if s != [] {
      var k := |s| - 1;
      SameExec(m, events, e, n, h, s[..k]);
      assert old'[..k] == OldIds(events, e, n, h, s[..k]);
      OldIdAt(events, e, n, h, s[k]);
    }
  }

  /** Old ids are distinct and in real-time order exactly when the new ones are. */
  lemma OldOrder<I, O>(events: seq<Event<I, O>>, e: seq<Event<I, O>>, n: int, h: seq<Entry<I, O>>, v: int, w: int)
    requires Entered(events, e, n, h) && IsId(h, v) && IsId(h, w)
    ensures var x, y := OldId(events, e, n, h, v), OldId(events, e, n, h, w);
            && (x == y <==> v == w) && HasPair(events, x) && HasPair(events, y)
            && (ReturnAt(events, y) < CallAt(events, x) <==> Precedes(h, w, v))
  {
    OldIdAt(events, e, n, h, v);
    OldIdAt(events, e, n, h, w);
    if OldId(events, e, n, h, v) == OldId(events, e, n, h, w) {
      OldIdInjective(events, e, n, h, v, w);
    }
  }

  lemma OldCovers<I, O>(events: seq<Event<I, O>>, e: seq<Event<I, O>>, n: int, h: seq<Entry<I, O>>, s: seq<int>, p: int)
    requires Entered(events, e, n, h) && ValidIds(h, s) && (forall x :: 0 <= x < |h| / 2 ==> x in s) && 0 <= p < |events|
    ensures events[p].id in OldIds(events, e, n, h, s)
  {
    OldIdOf(events, e, n, h, p);
    assert e[p].id in s;
    hide Entered;
    var i :| 0 <= i < |s| && s[i] == e[p].id;
    assert OldIds(events, e, n, h, s)[i] == events[p].id;
  }

  ghost predicate NonePrecedes<I, O>(h: seq<Entry<I, O>>, s: seq<int>)
    requires WellFormed(h)
  {
    forall i, j :: 0 <= i < j < |s| ==> !Precedes(h, s[j], s[i])
  }

  lemma OldsInOrder<I, O>(events: seq<Event<I, O>>, e: seq<Event<I, O>>, n: int, h: seq<Entry<I, O>>, s: seq<int>)
    requires Entered(events, e, n, h) && ValidIds(h, s) && AllPairs(events, OldIds(events, e, n, h, s))
    ensures var r := OldIds(events, e, n, h, s);
            (Distinct(r) && InOrder(events, r)) <==> (Distinct(s) && NonePrecedes(h, s))
  {
    assert WellFormed(h);
    hide Entered, WellFormed, CallAt, ReturnAt, HasPair, Precedes;
    var r := OldIds(events, e, n, h, s);
    forall i, j | 0 <= i < j < |r|
      ensures r[i] == r[j] <==> s[i] == s[j]
      ensures ReturnAt(events, r[j]) < CallAt(events, r[i]) <==> Precedes(h, s[j], s[i])
    {
      OldOrder(events, e, n, h, s[i], s[j]);
    }
  }

  /** An order of the entries is one of the events, under the old ids. */
  lemma ToEvents<S, I, O>(m: Model<S, I, O>, events: seq<Event<I, O>>, e: seq<Event<I, O>>, n: int,
                          h: seq<Entry<I, O>>, s: seq<int>)
    requires Entered(events, e, n, h) && IsLinearization(m, h, s)
    ensures IsEventOrder(m, events, OldIds(events, e, n, h, s))
  {
    assert WellFormed(h);
    assert NonePrecedes(h, s);
    hide Entered, WellFormed, Exec, ExecEvents, InOrder, NonePrecedes, Distinct;
    var r := OldIds(events, e, n, h, s);
    SameExec(m, events, e, n, h, s);
    AllOccur(s, |h| / 2);
    forall p | 0 <= p < |events| ensures events[p].id in r {
      OldCovers(events, e, n, h, s, p);
    }
    OldsInOrder(events, e, n, h, s);
  }

  /** The new ids of old ones. */
  ghost function NewIds<I, O>(events: seq<Event<I, O>>, e: seq<Event<I, O>>, s: seq<int>): (r: seq<int>)
    requires AllPairs(events, s) && |e| == |events|
    ensures |r| == |s| && forall i :: 0 <= i < |s| ==> r[i] == e[CallAt(events, s[i])].id
  {
    seq(|s|, i requires 0 <= i < |s| => e[CallAt(events, s[i])].id)
  }

  lemma NewThenOld<I, O>(events: seq<Event<I, O>>, e: seq<Event<I, O>>, n: int, h: seq<Entry<I, O>>, s: seq<int>)
    requires Entered(events, e, n, h) && AllPairs(events, s)
    ensures |e| == |events| && ValidIds(h, NewIds(events, e, s)) && OldIds(events, e, n, h, NewIds(events, e, s)) == s
  {
    var r := NewIds(events, e, s);
    forall i | 0 <= i < |s| ensures IsId(h, r[i]) && OldId(events, e, n, h, r[i]) == s[i] {
      OldIdOf(events, e, n, h, CallAt(events, s[i]));
    }
    hide Entered;
    assert OldIds(events, e, n, h, r) == s;
  }

  /** All of the numbers below n, once each, are n. */
  lemma CountAll(s: seq<int>, n: nat)
    requires Distinct(s) && (forall i :: 0 <= i < |s| ==> 0 <= s[i] < n) && forall x :: 0 <= x < n ==> x in s
    ensures |s| == n
  {
    DistinctSize(s);
    assert Elements(s) == Range(n);
  }

  lemma NewsCover<I, O>(events: seq<Event<I, O>>, e: seq<Event<I, O>>, n: int, h: seq<Entry<I, O>>, s: seq<int>, r: seq<int>)
    requires Entered(events, e, n, h) && ValidIds(h, r) && OldIds(events, e, n, h, r) == s
    requires forall p :: 0 <= p < |events| ==> events[p].id in s
    ensures forall v :: 0 <= v < |h| / 2 ==> v in r
  {
    forall v | 0 <= v < |h| / 2 ensures v in r {
      NewCovers(events, e, n, h, s, r, v);
    }
  }

  lemma NewCovers<I, O>(events: seq<Event<I, O>>, e: seq<Event<I, O>>, n: int, h: seq<Entry<I, O>>,
                        s: seq<int>, r: seq<int>, v: int)
    requires Entered(events, e, n, h) && ValidIds(h, r) && OldIds(events, e, n, h, r) == s && IsId(h, v)
    requires forall p :: 0 <= p < |events| ==> events[p].id in s
    ensures v in r
  {
    var id := events[CallPos(h, v)].id;
    assert id in s;
    var i :| 0 <= i < |s| && s[i] == id;
    OldIdInjective(events, e, n, h, v, r[i]);
  }

  /** An order of the events is one of the entries, under the new ids. */
  lemma ToEntries<S, I, O>(m: Model<S, I, O>, events: seq<Event<I, O>>, e: seq<Event<I, O>>, n: int,
                           h: seq<Entry<I, O>>, s: seq<int>)
    requires Entered(events, e, n, h) && IsEventOrder(m, events, s)
    ensures |e| == |events| && IsLinearization(m, h, NewIds(events, e, s))
  {
    assert WellFormed(h);
    hide Entered, WellFormed, Exec, ExecEvents, InOrder, Distinct, HasPair, CallAt, ReturnAt, OldId;
    NewThenOld(events, e, n, h, s);
    var r := NewIds(events, e, s);
    SameExec(m, events, e, n, h, r);
    NewsCover(events, e, n, h, s, r);
    OldsInOrder(events, e, n, h, r);
    CountAll(r, |h| / 2);
    assert NonePrecedes(h, r);
  }

  /** The entries come from the events by some renumbering. */
  ghost predicate IsEntered<I(!new), O(!new)>(events: seq<Event<I, O>>, h: seq<Entry<I, O>>)
  {
    WellFormed(h) && exists e, n :: Entered(events, e, n, h)
  }

  /** Renumbering and converting keeps linearizability. */
  lemma SameLinearizable<S, I(!new), O(!new)>(m: Model<S, I, O>, events: seq<Event<I, O>>, h: seq<Entry<I, O>>)
    requires IsEntered(events, h)
    ensures LinearizableEntries(m, h) <==> LinearizableEvents(m, events)
  {
    hide Entered, WellFormed, IsLinearization, IsEventOrder;
    var e, n :| Entered(events, e, n, h);
    if LinearizableEntries(m, h) {
      var s :| IsLinearization(m, h, s);
      ToEvents(m, events, e, n, h, s);
    }
    if LinearizableEvents(m, events) {
      var s :| IsEventOrder(m, events, s);
      ToEntries(m, events, e, n, h, s);
    }
  }

  // ---------- the checker on events ----------

  /** The history handed to the only worker. */
  method Prepare<I(!new), O(!new)>(events: seq<Event<I, O>>) returns (h: seq<Entry<I, O>>)
    ensures PairedEvents(events) ==> IsEntered(events, h)
  {
    var e, n := Renumber(events);
    h := ConvertEntries(e);
    hide PairedEvents, Renumbered, WellFormed;
    if PairedEvents(events) {
      EventsWellFormed(events, e, n, h);
      assert Entered(events, e, n, h);
    }
  }

  /** Every run of the checker on events: Ok means that they are linearizable, Illegal that they
      are not. */
  lemma VerdictIsRight<S, I(!new), O(!new)>(m: Model<S, I, O>, events: seq<Event<I, O>>, h: seq<Entry<I, O>>,
                                            computeInfo: bool, timeout: bool, run: seq<Parallel.State>, k: int)
    requires IsEntered(events, h)
    requires Parallel.IsRun(Parallel.Task(m, [h], computeInfo, timeout), run)
    requires 0 <= k < |run| && run[k].phase.Returned?
    ensures run[k].phase.result == Parallel.Ok ==> LinearizableEvents(m, events)
    ensures run[k].phase.result == Parallel.Illegal ==> !LinearizableEvents(m, events)
    ensures run[k].phase.result == Parallel.Unknown ==> timeout
  {
    hide Entered, WellFormed, LinearizableEntries, LinearizableEvents, Parallel.IsRun;
    var t := Parallel.Task(m, [h], computeInfo, timeout);
    Parallel.VerdictsAreGenuine(t, run, k);
    SameLinearizable(m, events, h);
    assert t.history[0] == h;
  }
}
