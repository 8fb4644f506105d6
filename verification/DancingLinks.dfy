/** The checker's doubly linked list of entries. Lifting an operation unlinks its call and its
    return but leaves their own pointers alone, so that unlifting can put them back. */
module DancingLinks {
  import opened Linearizability

  datatype Value<I, O> = NoValue | Input(input: I) | Output(output: O)

  /** A call has its return as partner; a return, and the head, have none. */
  class Node<I, O> {
    const value: Value<I, O>
    const partner: Node?<I, O>
    const id: int
    var next: Node?<I, O>
    var prev: Node?<I, O>

    constructor (value: Value<I, O>, partner: Node?<I, O>, id: int)
      ensures this.value == value && this.partner == partner && this.id == id
      ensures next == null && prev == null
    {
      this.value, this.partner, this.id := value, partner, id;
      next, prev := null, null;
    }
  }

  // ---------- places ----------
  // Nodes are numbered by their place in the full list, the head being 0; `gone` is the set
  // of places that are currently unlinked.

  /** Place j follows place i in the list without the places in `gone`; j == size is its end. */
  ghost predicate Adjacent(size: int, gone: set<int>, i: int, j: int)
  {
    0 <= i < j <= size && i !in gone && j !in gone && forall k :: i < k < j ==> k in gone
  }

  ghost function Before(size: int, gone: set<int>, c: int): (p: int)
    requires 0 < c <= size && 0 !in gone && c !in gone
    ensures Adjacent(size, gone, p, c)
  {
    LastBefore(size, gone, c, c - 1)
  }

  ghost function LastBefore(size: int, gone: set<int>, c: int, k: int): (p: int)
    requires 0 <= k < c <= size && 0 !in gone && c !in gone
    requires forall i :: k < i < c ==> i in gone
    ensures Adjacent(size, gone, p, c)
  {
    if k !in gone then k else LastBefore(size, gone, c, k - 1)
  }

  ghost function After(size: int, gone: set<int>, c: int): (q: int)
    requires 0 <= c < size && size !in gone && c !in gone
    ensures Adjacent(size, gone, c, q)
  {
    FirstAfter(size, gone, c, c + 1)
  }

  ghost function FirstAfter(size: int, gone: set<int>, c: int, k: int): (q: int)
    requires 0 <= c < k <= size && size !in gone && c !in gone
    requires forall i :: c < i < k ==> i in gone
    ensures Adjacent(size, gone, c, q)
    decreases size - k
  {
    if k !in gone then k else FirstAfter(size, gone, c, k + 1)
  }

  /** Removing c joins its neighbours and changes nothing else. */
  lemma RemoveJoins(size: int, gone: set<int>, p: int, c: int, q: int, i: int, j: int)
    requires Adjacent(size, gone, p, c) && Adjacent(size, gone, c, q)
    ensures Adjacent(size, gone + {c}, i, j) <==>
              (i == p && j == q) || (Adjacent(size, gone, i, j) && i != c && j != c)
  {
    if Adjacent(size, gone + {c}, i, j) {
      if i < c < j {
        assert !(i < p < j) && !(i < q < j);
        assert !(p < i < c) && !(c < j < q);
      }
    }
  }

  // ---------- pointers ----------

  ghost function NodeAt<I, O>(nodes: seq<Node<I, O>>, i: int): Node?<I, O>
  {
    if 0 <= i < |nodes| then nodes[i] else null
  }

  ghost predicate Separate<I, O>(nodes: seq<Node<I, O>>)
  {
    forall i, j :: 0 <= i < j < |nodes| ==> nodes[i] != nodes[j]
  }

  /** The pointers of the nodes that are in the list agree with its order. */
  ghost predicate Linked<I, O>(nodes: seq<Node<I, O>>, gone: set<int>)
    reads nodes
  {
    forall i, j :: Adjacent(|nodes|, gone, i, j) ==>
      nodes[i].next == NodeAt(nodes, j) && (j < |nodes| ==> nodes[j].prev == nodes[i])
  }

  datatype Link<I, O> = Link(prev: Node?<I, O>, next: Node?<I, O>)

  ghost function LinkOf<I, O>(node: Node<I, O>): Link<I, O>
    reads node
  {
    Link(node.prev, node.next)
  }

  /** The pointers of place c, now unlinked, still lead to its neighbours in the list without `gone`. */
  ghost predicate Saves<I, O>(nodes: seq<Node<I, O>>, gone: set<int>, c: int, link: Link<I, O>)
  {
    && (forall p :: Adjacent(|nodes|, gone, p, c) ==> link.prev == NodeAt(nodes, p))
    && (forall q :: Adjacent(|nodes|, gone, c, q) ==> link.next == NodeAt(nodes, q))
  }

  ghost predicate Places(size: int, gone: set<int>)
  {
    forall k :: k in gone ==> 0 < k < size
  }

  /** Takes a return out of the list; it may be the last node. */
  method Unlink<I, O>(node: Node<I, O>, ghost nodes: seq<Node<I, O>>, ghost gone: set<int>, ghost c: int)
    requires Separate(nodes) && Places(|nodes|, gone) && Linked(nodes, gone)
    requires 0 < c < |nodes| && c !in gone && nodes[c] == node
    modifies nodes
    ensures Linked(nodes, gone + {c}) && Saves(nodes, gone, c, LinkOf(nodes[c]))
    ensures forall k :: k in gone + {c} ==> LinkOf(nodes[k]) == old(LinkOf(nodes[k]))
    ensures nodes[0].prev == old(nodes[0].prev)
  {
    ghost var p, q := Before(|nodes|, gone, c), After(|nodes|, gone, c);
    node.prev.next := node.next;
    if node.next != null {
      node.next.prev := node.prev;
    }
    forall i, j { RemoveJoins(|nodes|, gone, p, c, q, i, j); }
  }

  /** Takes a call out of the list. Its return, at place r, is behind it, so it has a next node. */
  method UnlinkCall<I, O>(node: Node<I, O>, ghost nodes: seq<Node<I, O>>, ghost gone: set<int>, ghost c: int, ghost r: int)
    requires Separate(nodes) && Places(|nodes|, gone) && Linked(nodes, gone)
    requires 0 < c < r < |nodes| && c !in gone && r !in gone && nodes[c] == node
    modifies nodes
    ensures Linked(nodes, gone + {c}) && Saves(nodes, gone, c, LinkOf(nodes[c]))
    ensures forall k :: k in gone + {c} ==> LinkOf(nodes[k]) == old(LinkOf(nodes[k]))
    ensures nodes[0].prev == old(nodes[0].prev)
  {
    ghost var p, q := Before(|nodes|, gone, c), After(|nodes|, gone, c);
    node.prev.next := node.next;
    node.next.prev := node.prev;
    forall i, j { RemoveJoins(|nodes|, gone, p, c, q, i, j); }
  }

  /** Puts a return back between the neighbours it still points to. */
  method Relink<I, O>(node: Node<I, O>, ghost nodes: seq<Node<I, O>>, ghost gone: set<int>, ghost c: int)
    requires 0 < c < |nodes| && c !in gone && nodes[c] == node
    requires Separate(nodes) && Places(|nodes|, gone) && Linked(nodes, gone + {c}) && Saves(nodes, gone, c, LinkOf(nodes[c]))
    modifies nodes
    ensures Linked(nodes, gone)
    ensures forall k :: k in gone + {c} ==> LinkOf(nodes[k]) == old(LinkOf(nodes[k]))
    ensures nodes[0].prev == old(nodes[0].prev)
  {
    ghost var p, q := Before(|nodes|, gone, c), After(|nodes|, gone, c);
    node.prev.next := node;
    if node.next != null {
      node.next.prev := node;
    }
    forall i, j { RemoveJoins(|nodes|, gone, p, c, q, i, j); }
  }

  /** Puts a call back; the next node it points to was there when it was taken out. */
  method RelinkCall<I, O>(node: Node<I, O>, ghost nodes: seq<Node<I, O>>, ghost gone: set<int>, ghost c: int, ghost r: int)
    requires 0 < c < r < |nodes| && c !in gone && r !in gone && nodes[c] == node
    requires Separate(nodes) && Places(|nodes|, gone) && Linked(nodes, gone + {c}) && Saves(nodes, gone, c, LinkOf(nodes[c]))
    modifies nodes
    ensures Linked(nodes, gone)
    ensures forall k :: k in gone + {c} ==> LinkOf(nodes[k]) == old(LinkOf(nodes[k]))
    ensures nodes[0].prev == old(nodes[0].prev)
  {
    ghost var p, q := Before(|nodes|, gone, c), After(|nodes|, gone, c);
    node.prev.next := node;
    node.next.prev := node;
    forall i, j { RemoveJoins(|nodes|, gone, p, c, q, i, j); }
  }

  /** The call at place c and its return at place r are in the list. */
  ghost predicate Present<I, O>(nodes: seq<Node<I, O>>, gone: set<int>, c: int, r: int)
  {
    && Separate(nodes) && Places(|nodes|, gone)
    && 0 < c < r < |nodes| && c !in gone && r !in gone
    && nodes[c].partner == nodes[r]
  }

  /** Takes an operation out: first its call, then its return, which may have been adjacent. */
  method Lift<I, O>(entry: Node<I, O>, ghost nodes: seq<Node<I, O>>, ghost gone: set<int>, ghost c: int, ghost r: int)
    requires Present(nodes, gone, c, r) && nodes[c] == entry && Linked(nodes, gone)
    modifies nodes
    ensures Linked(nodes, gone + {c} + {r})
    ensures Saves(nodes, gone, c, LinkOf(nodes[c])) && Saves(nodes, gone + {c}, r, LinkOf(nodes[r]))
    ensures forall k :: k in gone ==> LinkOf(nodes[k]) == old(LinkOf(nodes[k]))
    ensures nodes[0].prev == old(nodes[0].prev)
  {
    UnlinkCall(entry, nodes, gone, c, r);
    Unlink(entry.partner, nodes, gone + {c}, r);
  }

  /** Puts the operation lifted last back: first its return, then its call. */
  method Unlift<I, O>(entry: Node<I, O>, ghost nodes: seq<Node<I, O>>, ghost gone: set<int>, ghost c: int, ghost r: int)
    requires Present(nodes, gone, c, r) && nodes[c] == entry && Linked(nodes, gone + {c} + {r})
    requires Saves(nodes, gone, c, LinkOf(nodes[c])) && Saves(nodes, gone + {c}, r, LinkOf(nodes[r]))
    modifies nodes
    ensures Linked(nodes, gone)
    ensures forall k :: k in gone ==> LinkOf(nodes[k]) == old(LinkOf(nodes[k]))
    ensures nodes[0].prev == old(nodes[0].prev)
  {
    Relink(entry.partner, nodes, gone + {c}, r);
    RelinkCall(entry, nodes, gone, c, r);
  }

  /** Unlifting right after lifting restores every pointer. */
  method LiftUnlift<I, O>(entry: Node<I, O>, ghost nodes: seq<Node<I, O>>, ghost gone: set<int>, ghost c: int, ghost r: int)
    requires Present(nodes, gone, c, r) && nodes[c] == entry && Linked(nodes, gone)
    modifies nodes
    ensures forall k :: 0 <= k < |nodes| ==> nodes[k].next == old(nodes[k].next)
    ensures forall k :: 0 <= k < |nodes| ==> nodes[k].prev == old(nodes[k].prev)
  {
    Lift(entry, nodes, gone, c, r);
    Unlift(entry, nodes, gone, c, r);
    forall k | 0 <= k < |nodes| && k !in gone ensures nodes[k].next == old(nodes[k].next) {
      assert Adjacent(|nodes|, gone, k, After(|nodes|, gone, k));
    }
    forall k | 0 < k < |nodes| && k !in gone ensures nodes[k].prev == old(nodes[k].prev) {
      assert Adjacent(|nodes|, gone, Before(|nodes|, gone, k), k);
    }
  }

  // ---------- building the list ----------

  /** A straight list: pointers between neighbours, nothing before the first or after the last. */
  ghost predicate Chain<I, O>(nodes: seq<Node<I, O>>)
    reads nodes
  {
    && (forall k :: 0 <= k < |nodes| ==> nodes[k].next == NodeAt(nodes, k + 1))
    && (forall k :: 0 <= k < |nodes| ==> nodes[k].prev == NodeAt(nodes, k - 1))
  }

  lemma ChainIsLinked<I, O>(nodes: seq<Node<I, O>>)
    requires Chain(nodes)
    ensures Linked(nodes, {})
  {
    var none: set<int> := {};
    forall i, j | Adjacent(|nodes|, none, i, j)
      ensures nodes[i].next == NodeAt(nodes, j) && (j < |nodes| ==> nodes[j].prev == nodes[i])
    {
      assert i + 1 !in none;
      assert j == i + 1;
    }
  }

  /** Places n directly before mark. */
  method InsertBefore<I, O>(n: Node<I, O>, mark: Node?<I, O>) returns (r: Node<I, O>)
    modifies n, if mark == null then {} else {mark}, if mark == null || mark.prev == null then {} else {mark.prev}
    ensures r == n
    ensures mark == null ==> n.next == old(n.next) && n.prev == old(n.prev)
    ensures mark != null && mark != n && old(mark.prev) != n ==>
              && n.next == mark && mark.prev == n
              && n.prev == (if old(mark.prev) == null then old(n.prev) else old(mark.prev))
              && (old(mark.prev) != null ==> old(mark.prev).next == n)
              && (old(mark.prev) != mark ==> mark.next == old(mark.next))
  {
    if mark != null {
      var beforeMark := mark.prev;
      mark.prev := n;
      n.next := mark;
      if beforeMark != null {
        n.prev := beforeMark;
        beforeMark.next := n;
      }
    }
    r := n;
  }

  /** Inserting before the first node of a straight list prepends. */
  method Prepend<I, O>(n: Node<I, O>, ghost nodes: seq<Node<I, O>>, root: Node?<I, O>) returns (r: Node<I, O>)
    requires Separate(nodes) && Chain(nodes) && n !in nodes && root == NodeAt(nodes, 0)
    requires n.next == null && n.prev == null
    modifies n, nodes
    ensures r == n && Separate([n] + nodes) && Chain([n] + nodes)
  {
    r := InsertBefore(n, root);
    ghost var all := [n] + nodes;
    forall k | 0 <= k < |all| ensures all[k].next == NodeAt(all, k + 1) && all[k].prev == NodeAt(all, k - 1) {
      if k > 1 {
        assert nodes[k - 1] != nodes[0] && nodes[k - 1] != n;
      }
    }
  }

  method Length<I, O>(n: Node?<I, O>, ghost nodes: seq<Node<I, O>>) returns (l: nat)
    requires Chain(nodes) && n == NodeAt(nodes, 0)
    ensures l == |nodes|
  {
    l := 0;
    var m := n;
    while m != null
      invariant 0 <= l <= |nodes| && m == NodeAt(nodes, l)
      decreases |nodes| - l
    {
      m := m.next;
      l := l + 1;
    }
  }

  /** Node p + 1 carries entry p; a call's partner is the node of its return. */
  ghost predicate Carries<I, O>(h: seq<Entry<I, O>>, nodes: seq<Node<I, O>>, p: int)
    requires WellFormed(h) && |nodes| == |h| + 1 && 0 <= p < |h|
  {
    && nodes[p + 1].id == h[p].id
    && (h[p].Call? ==>
          nodes[p + 1].value == Input(h[p].input) && nodes[p + 1].partner == nodes[ReturnPos(h, h[p].id) + 1])
    && (h[p].Return? ==> nodes[p + 1].value == Output(h[p].output) && nodes[p + 1].partner == null)
  }

  ghost predicate Represents<I, O>(h: seq<Entry<I, O>>, nodes: seq<Node<I, O>>)
    requires WellFormed(h)
  {
    && |nodes| == |h| + 1
    && Separate(nodes)
    && (forall p :: 0 <= p < |h| ==> Carries(h, nodes, p))
  }

  /** The same, for the nodes built so far: those of the entries from i on. */
  ghost predicate CarriesFrom<I, O>(h: seq<Entry<I, O>>, nodes: seq<Node<I, O>>, i: int, p: int)
    requires WellFormed(h) && 0 <= i <= p < |h| && |nodes| == |h| - i
  {
    var n := nodes[p - i];
    && n.id == h[p].id
    && (h[p].Call? ==> n.value == Input(h[p].input) && n.partner == PartnerFrom(h, nodes, i, p))
    && (h[p].Return? ==> n.value == Output(h[p].output) && n.partner == null)
  }

  ghost function PartnerFrom<I, O>(h: seq<Entry<I, O>>, nodes: seq<Node<I, O>>, i: int, p: int): Node<I, O>
    requires WellFormed(h) && 0 <= i <= p < |h| && |nodes| == |h| - i && h[p].Call?
  {
    assert IsCall(h, p, h[p].id);
    nodes[ReturnPos(h, h[p].id) - i]
  }

  ghost predicate Built<I, O>(h: seq<Entry<I, O>>, nodes: seq<Node<I, O>>, i: int)
    requires WellFormed(h)
  {
    0 <= i <= |h| && |nodes| == |h| - i && forall p :: i <= p < |h| ==> CarriesFrom(h, nodes, i, p)
  }

  ghost predicate Matches<I, O>(h: seq<Entry<I, O>>, nodes: seq<Node<I, O>>, i: int, partners: map<int, Node<I, O>>)
    requires WellFormed(h) && 0 <= i <= |h| && |nodes| == |h| - i
  {
    forall id :: IsId(h, id) && ReturnPos(h, id) >= i ==> id in partners && partners[id] == nodes[ReturnPos(h, id) - i]
  }

  method MakeLinkedEntries<I, O>(h: seq<Entry<I, O>>) returns (root: Node?<I, O>, ghost nodes: seq<Node<I, O>>)
    requires WellFormed(h)
    ensures |nodes| == |h| && Separate(nodes) && Chain(nodes) && root == NodeAt(nodes, 0)
    ensures Built(h, nodes, 0)
    ensures fresh(nodes)
  {
    root, nodes := null, [];
    hide WellFormed, Built, Matches;
    NothingBuilt(h);
    var partners: map<int, Node<I, O>> := map[];
    var i := |h|;
    while i > 0
      invariant 0 <= i <= |h| && |nodes| == |h| - i
      invariant Separate(nodes) && Chain(nodes) && root == NodeAt(nodes, 0) && fresh(nodes)
      invariant Built(h, nodes, i)
      invariant Matches(h, nodes, i, partners)
    {
      i := i - 1;
      var elem := h[i];
      if elem.Return? {
        var entry := new Node(Output(elem.output), null, elem.id);
        ExtendReturn(h, nodes, i, partners, entry);
        partners := partners[elem.id := entry];
        root := Prepend(entry, nodes, root);
        nodes := [entry] + nodes;
      } else {
        ReturnIsKnown(h, nodes, i, partners);
        var entry := new Node(Input(elem.input), partners[elem.id], elem.id);
        ExtendCall(h, nodes, i, partners, entry);
        root := Prepend(entry, nodes, root);
        nodes := [entry] + nodes;
      }
    }
  }

  lemma NothingBuilt<I, O>(h: seq<Entry<I, O>>)
    requires WellFormed(h)
    ensures Built(h, [], |h|) && Matches(h, [], |h|, map[])
  {
  }

  /** When a call is reached from behind, its return has been built. */
  lemma ReturnIsKnown<I, O>(h: seq<Entry<I, O>>, nodes: seq<Node<I, O>>, i: int, partners: map<int, Node<I, O>>)
    requires WellFormed(h) && 0 <= i < |h| && |nodes| == |h| - i - 1 && h[i].Call?
    requires Matches(h, nodes, i + 1, partners)
    ensures h[i].id in partners
  {
    assert IsCall(h, i, h[i].id);
    assert ReturnPos(h, h[i].id) > i;
  }

  lemma ExtendReturn<I, O>(h: seq<Entry<I, O>>, nodes: seq<Node<I, O>>, i: int, partners: map<int, Node<I, O>>, n: Node<I, O>)
    requires WellFormed(h) && 0 <= i < |h| && |nodes| == |h| - i - 1 && h[i].Return?
    requires Built(h, nodes, i + 1)
    requires Matches(h, nodes, i + 1, partners)
    requires n.id == h[i].id && n.value == Output(h[i].output) && n.partner == null
    ensures Built(h, [n] + nodes, i)
    ensures Matches(h, [n] + nodes, i, partners[h[i].id := n])
  {
    var all := [n] + nodes;
    assert IsReturn(h, i, h[i].id);
    forall p | i <= p < |h| ensures CarriesFrom(h, all, i, p) {
      if p > i {
        assert CarriesFrom(h, nodes, i + 1, p);
        assert h[p].Call? ==> IsCall(h, p, h[p].id) && ReturnPos(h, h[p].id) > p;
      }
    }
  }

  lemma ExtendCall<I, O>(h: seq<Entry<I, O>>, nodes: seq<Node<I, O>>, i: int, partners: map<int, Node<I, O>>, n: Node<I, O>)
    requires WellFormed(h) && 0 <= i < |h| && |nodes| == |h| - i - 1 && h[i].Call?
    requires Built(h, nodes, i + 1)
    requires Matches(h, nodes, i + 1, partners) && h[i].id in partners
    requires n.id == h[i].id && n.value == Input(h[i].input) && n.partner == partners[h[i].id]
    ensures Built(h, [n] + nodes, i)
    ensures Matches(h, [n] + nodes, i, partners)
  {
    var all := [n] + nodes;
    assert IsCall(h, i, h[i].id);
    forall p | i <= p < |h| ensures CarriesFrom(h, all, i, p) {
      if p > i {
        assert CarriesFrom(h, nodes, i + 1, p);
        assert h[p].Call? ==> IsCall(h, p, h[p].id) && ReturnPos(h, h[p].id) > p;
      }
    }
    forall id | IsId(h, id) && ReturnPos(h, id) >= i ensures id in partners && partners[id] == all[ReturnPos(h, id) - i] {
      assert IsReturn(h, ReturnPos(h, id), id);
    }
  }

  lemma BuiltRepresents<I, O>(h: seq<Entry<I, O>>, nodes: seq<Node<I, O>>, head: Node<I, O>)
    requires WellFormed(h) && Built(h, nodes, 0) && Separate([head] + nodes)
    ensures Represents(h, [head] + nodes)
  {
    forall p | 0 <= p < |h| ensures Carries(h, [head] + nodes, p) {
      assert CarriesFrom(h, nodes, 0, p);
    }
  }
}
