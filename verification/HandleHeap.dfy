/**
 Heap of reference-counted objects behind the opaque pointers that C holds.

 A live object is a cell with a strong count and the references it owns.
 `Arc` objects (keys, client-cert verifiers, resolvers, configs) may have any
 positive count; `Box` objects (builders, connections) have count 1.
 */
module HandleHeap {
  import opened Base

  type Ptr = nat

  datatype Side = Client | Server

  datatype Node =
    | Key
    | Verifier(optional: bool)
    | KeyResolver(keys: seq<Ptr>)
    | HelloResolver
    | Builder(side: Side, verifier: Option<Ptr>, resolver: Option<Ptr>)
    | Config(end: Side, clientAuth: Option<Ptr>, certResolver: Option<Ptr>)
    | Connection(config: Ptr)
  {
    /** The references this object releases when it is destroyed, in drop order. */
    function Refs(): seq<Ptr> {
      match this
      case Key => []
      case Verifier(_) => []
      case KeyResolver(keys) => keys
      case HelloResolver => []
      case Builder(_, v, r) => Listed(v) + Listed(r)
      case Config(_, v, r) => Listed(v) + Listed(r)
      case Connection(c) => [c]
    }

    predicate IsResolver() { KeyResolver? || HelloResolver? }

    /** References always point to a strictly smaller level. */
    function Level(): nat {
      match this
      case Key => 0
      case Verifier(_) => 0
      case KeyResolver(_) => 1
      case HelloResolver => 1
      case Builder(_, _, _) => 2
      case Config(_, _, _) => 2
      case Connection(_) => 3
    }
  }

  datatype Cell = Cell(strong: nat, node: Node)
  type Heap = map<Ptr, Cell>
  type Graph = map<Ptr, Node>

  function Nodes(h: Heap): Graph {
    map p | p in h :: h[p].node
  }

  // ---- The references held by live objects, with multiplicity ----

  /** How many references to `p` the objects of `g` hold. */
  ghost function Held(g: Graph, p: Ptr): (n: nat)
    decreases |g|
  {
    if g == map[] then 0
    else
      var q :| q in g;
      multiset(g[q].Refs())[p] + Held(g - {q}, p)
  }

  lemma {:induction false} HeldRemove(g: Graph, q: Ptr, p: Ptr)
    requires q in g
    ensures Held(g, p) == multiset(g[q].Refs())[p] + Held(g - {q}, p)
    decreases |g|
  {
    var r :| r in g && Held(g, p) == multiset(g[r].Refs())[p] + Held(g - {r}, p);
    if r != q {
      HeldRemove(g - {r}, q, p);
      HeldRemove(g - {q}, r, p);
      assert g - {r} - {q} == g - {q} - {r};
    }
  }

  lemma HeldInsert(g: Graph, q: Ptr, n: Node, p: Ptr)
    ensures Held(g[q := n], p) == multiset(n.Refs())[p] + Held(g - {q}, p)
  {
    HeldRemove(g[q := n], q, p);
    assert g[q := n] - {q} == g - {q};
  }

  lemma {:induction false} HolderOf(g: Graph, p: Ptr) returns (q: Ptr)
    requires Held(g, p) > 0
    ensures q in g && p in g[q].Refs()
    decreases |g|
  {
    q :| q in g && Held(g, p) == multiset(g[q].Refs())[p] + Held(g - {q}, p);
    if p !in g[q].Refs() {
      q := HolderOf(g - {q}, p);
    }
  }

  lemma HeldContains(g: Graph, q: Ptr, p: Ptr)
    requires q in g && p in g[q].Refs()
    ensures Held(g, p) > 0
  {
  }

  // ---- Counting discipline ----

  /** The strong count of `p` is its references in `owned` (C handles and values the
      running Rust code still has to drop) plus those held by live objects; a
      released object has neither. */
  ghost predicate CountedAt(h: Heap, owned: multiset<Ptr>, p: Ptr) {
    if p in h then 0 < h[p].strong == owned[p] + Held(Nodes(h), p)
    else owned[p] == 0 == Held(Nodes(h), p)
  }

  ghost predicate Counted(h: Heap, owned: multiset<Ptr>) {
    forall p :: CountedAt(h, owned, p)
  }

  /** Each reference has the kind that the Rust types require. */
  ghost predicate Typed(g: Graph) {
    forall p :: p in g ==> TypedNode(g, g[p])
  }

  ghost predicate TypedNode(g: Graph, n: Node) {
    match n
    case Key => true
    case Verifier(_) => true
    case KeyResolver(keys) => forall k :: k in keys ==> k in g && g[k].Key?
    case HelloResolver => true
    case Builder(_, v, r) => TypedParts(g, v, r)
    case Config(_, v, r) => TypedParts(g, v, r)
    case Connection(c) => c in g && g[c].Config?
  }

  ghost predicate TypedParts(g: Graph, v: Option<Ptr>, r: Option<Ptr>) {
    && (v.Some? ==> v.value in g && g[v.value].Verifier?)
    && (r.Some? ==> r.value in g && g[r.value].IsResolver())
  }

  lemma TypedRefs(g: Graph, q: Ptr, p: Ptr)
    requires Typed(g) && q in g && p in g[q].Refs()
    ensures p in g && g[p].Level() < g[q].Level()
  {
  }

  // ---- Tracing collection: the specification of release ----

  /** `path` leads from a root to `p` along references. */
  ghost predicate Path(g: Graph, roots: multiset<Ptr>, path: seq<Ptr>, p: Ptr) {
    && path != [] && path[0] in roots && path[|path| - 1] == p
    && (forall i :: 0 <= i < |path| ==> path[i] in g)
    && (forall i :: 0 < i < |path| ==> path[i] in g[path[i - 1]].Refs())
  }

  ghost predicate Reachable(g: Graph, roots: multiset<Ptr>, p: Ptr) {
    exists path :: Path(g, roots, path, p)
  }

  /** What a tracing collector would keep. */
  ghost function Collect(g: Graph, roots: multiset<Ptr>): Graph {
    map p | p in g && Reachable(g, roots, p) :: g[p]
  }

  lemma {:induction false} CountedReachable(h: Heap, owned: multiset<Ptr>, p: Ptr)
    requires Counted(h, owned) && Typed(Nodes(h)) && p in h
    ensures Reachable(Nodes(h), owned, p)
    decreases 3 - Nodes(h)[p].Level()
  {
    var g := Nodes(h);
    assert CountedAt(h, owned, p);
    if p in owned {
      assert Path(g, owned, [p], p);
    } else {
      var q := HolderOf(g, p);
      TypedRefs(g, q, p);
      CountedReachable(h, owned, q);
      var path :| Path(g, owned, path, q);
      assert Path(g, owned, path + [p], p);
    }
  }

  lemma {:induction false} PathStays(g: Graph, kept: Graph, roots: multiset<Ptr>, path: seq<Ptr>, p: Ptr)
    requires Path(g, roots, path, p)
    requires forall q :: q in kept ==> q in g && g[q] == kept[q]
    requires forall q :: q in roots ==> q in kept
    requires forall q, r :: q in kept && r in kept[q].Refs() ==> r in kept
    ensures p in kept
    decreases |path|
  {
    if |path| == 1 {
    } else {
      PathStays(g, kept, roots, path[..|path| - 1], path[|path| - 2]);
    }
  }

  lemma CountedClosed(h: Heap, owned: multiset<Ptr>)
    requires Counted(h, owned)
    ensures forall q :: q in owned ==> q in h
    ensures forall q, r :: q in h && r in h[q].node.Refs() ==> r in h
  {
    forall q | q in owned ensures q in h {
      assert CountedAt(h, owned, q);
    }
    forall q, r | q in h && r in h[q].node.Refs() ensures r in h {
      HeldContains(Nodes(h), q, r);
      assert CountedAt(h, owned, r);
    }
  }

  /** Reference counting is exact: a well-typed counted heap `h` inside a graph `g`
      is precisely what a tracing collector keeps of `g`. */
  lemma CountedIsCollected(g: Graph, h: Heap, owned: multiset<Ptr>)
    requires Counted(h, owned) && Typed(Nodes(h))
    requires forall p :: p in h ==> p in g && g[p] == h[p].node
    ensures Collect(g, owned) == Nodes(h)
  {
    forall p | p in g ensures Reachable(g, owned, p) <==> p in h {
      if Reachable(g, owned, p) {
        var path :| Path(g, owned, path, p);
        CountedClosed(h, owned);
        PathStays(g, Nodes(h), owned, path, p);
      }
      if p in h {
        CountedReachable(h, owned, p);
        PathLifts(g, Nodes(h), owned, p);
      }
    }
  }

  lemma PathLifts(g: Graph, kept: Graph, roots: multiset<Ptr>, p: Ptr)
    requires forall q :: q in kept ==> q in g && g[q] == kept[q]
    requires Reachable(kept, roots, p)
    ensures Reachable(g, roots, p)
  {
    var path :| Path(kept, roots, path, p);
    assert Path(g, roots, path, p);
  }

  /** Without owners nothing stays allocated: references cannot keep each other alive. */
  lemma NoOwnersNoHeap(h: Heap)
    requires Counted(h, multiset{}) && Typed(Nodes(h))
    ensures h == map[]
  {
    if p :| p in h {
      CountedReachable(h, multiset{}, p);
    }
  }

  /** The counts are determined by the objects and the owners. */
  lemma CountsDetermined(h: Heap, k: Heap, owned: multiset<Ptr>)
    requires Counted(h, owned) && Counted(k, owned) && Nodes(h) == Nodes(k)
    ensures h == k
  {
    assert h.Keys == Nodes(h).Keys == Nodes(k).Keys == k.Keys;
    forall p | p in h ensures h[p] == k[p] {
      assert h[p].node == Nodes(h)[p] == Nodes(k)[p] == k[p].node;
      assert CountedAt(h, owned, p) && CountedAt(k, owned, p);
    }
  }

  // ---- What disappears with a part of the graph ----

  /** `g` is the disjoint union of `kept` and `lost`. */
  ghost predicate Splits(g: Graph, kept: Graph, lost: Graph) {
    && kept.Keys !! lost.Keys && g.Keys == kept.Keys + lost.Keys
    && (forall p :: p in kept ==> g[p] == kept[p])
    && (forall p :: p in lost ==> g[p] == lost[p])
  }

  lemma SplitsRemove(g: Graph, kept: Graph, lost: Graph, q: Ptr)
    requires Splits(g, kept, lost) && q in kept
    ensures Splits(g - {q}, kept - {q}, lost) && |kept - {q}| < |kept|
  {
    assert (g - {q}).Keys == g.Keys - {q};
    assert (kept - {q}).Keys == kept.Keys - {q};
  }

  lemma {:induction false} HeldSplit(g: Graph, kept: Graph, lost: Graph, p: Ptr)
    requires Splits(g, kept, lost)
    ensures Held(g, p) == Held(kept, p) + Held(lost, p)
    decreases |kept|
  {
    if kept == map[] {
      assert g.Keys == lost.Keys;
      assert g == lost;
    } else {
      var q :| q in kept;
      SplitsRemove(g, kept, lost, q);
      HeldSplit(g - {q}, kept - {q}, lost, p);
      HeldRemove(kept, q, p);
      HeldRemove(g, q, p);
    }
  }

  lemma SubgraphSplits(g: Graph, kept: Graph)
    requires forall p :: p in kept ==> p in g && g[p] == kept[p]
    ensures Splits(g, kept, g - kept.Keys)
  {
  }

  lemma {:induction false} HeldByLeaves(g: Graph, p: Ptr)
    requires forall q :: q in g ==> g[q].Refs() == []
    ensures Held(g, p) == 0
    decreases |g|
  {
    if g == map[] {
    } else {
      var q :| q in g;
      HeldRemove(g, q, p);
      HeldByLeaves(g - {q}, p);
    }
  }

  /** Besides the types: a resolver has one holder, because it is moved and never cloned. */
  ghost predicate Sound(h: Heap) {
    && Typed(Nodes(h))
    && forall p :: p in h && h[p].node.IsResolver() ==> h[p].strong <= 1
  }

  lemma SoundShrinks(h: Heap, kept: Heap)
    requires Sound(h)
    requires forall p :: p in kept ==> p in h && h[p].node == kept[p].node && kept[p].strong <= h[p].strong
    requires forall p, q :: p in kept && q in kept[p].node.Refs() ==> q in kept
    ensures Sound(kept)
  {
    forall p | p in kept ensures TypedNode(Nodes(kept), kept[p].node) {
      assert TypedNode(Nodes(h), Nodes(h)[p]);
      forall q | q in kept[p].node.Refs() ensures q in kept && kept[q].node == h[q].node {}
    }
  }

  lemma TypedNodeCarries(g: Graph, k: Graph, n: Node)
    requires TypedNode(g, n)
    requires forall r :: r in g && r in n.Refs() ==> r in k && (k[r] == g[r] || (k[r].Builder? && g[r].Builder?))
    ensures TypedNode(k, n)
  {
  }

  lemma TypedInsert(g: Graph, p: Ptr, n: Node)
    requires Typed(g) && TypedNode(g, n)
    requires p in g ==> g[p].Builder? && n.Builder?
    ensures Typed(g[p := n])
  {
  }

  // ---- Elementary count changes ----

  /** `Arc::clone`. */
  function Retain(h: Heap, p: Ptr): Heap
    requires p in h
  {
    h[p := h[p].(strong := h[p].strong + 1)]
  }

  lemma RetainCounted(h: Heap, p: Ptr, owned: multiset<Ptr>)
    requires Counted(h, owned) && p in h
    ensures Counted(Retain(h, p), owned + multiset{p})
    ensures Nodes(Retain(h, p)) == Nodes(h)
  {
    var k := Retain(h, p);
    assert Nodes(k) == Nodes(h);
    forall q ensures CountedAt(k, owned + multiset{p}, q) {
      assert CountedAt(h, owned, q);
    }
  }

  /** Moving owned references into a new object with one owner of its own. */
  lemma AllocCounted(h: Heap, at: Ptr, n: Node, owned: multiset<Ptr>)
    requires Counted(h, owned + multiset(n.Refs())) && at !in h
    ensures Counted(h[at := Cell(1, n)], owned + multiset{at})
    ensures Nodes(h[at := Cell(1, n)]) == Nodes(h)[at := n]
  {
    var k, refs := h[at := Cell(1, n)], multiset(n.Refs());
    assert Nodes(k) == Nodes(h)[at := n];
    assert Nodes(h) - {at} == Nodes(h);
    forall q ensures CountedAt(k, owned + multiset{at}, q) {
      assert CountedAt(h, owned + refs, q);
      HeldInsert(Nodes(h), at, n, q);
    }
  }

  /** Assigning a field moves references in and the replaced ones out. */
  lemma ReplaceCounted(h: Heap, p: Ptr, n: Node, owned: multiset<Ptr>, moved: multiset<Ptr>, out: multiset<Ptr>)
    requires p in h && Counted(h, owned + moved)
    requires multiset(n.Refs()) + out == multiset(h[p].node.Refs()) + moved
    ensures Counted(h[p := h[p].(node := n)], owned + out)
    ensures Nodes(h[p := h[p].(node := n)]) == Nodes(h)[p := n]
  {
    var k := h[p := h[p].(node := n)];
    assert Nodes(k) == Nodes(h)[p := n];
    forall q ensures CountedAt(k, owned + out, q) {
      assert CountedAt(h, owned + moved, q);
      assert (multiset(n.Refs()) + out)[q] == (multiset(h[p].node.Refs()) + moved)[q];
      HeldInsert(Nodes(h), p, n, q);
      HeldRemove(Nodes(h), p, q);
    }
  }

  /** Dropping a reference that is not the last one. */
  lemma DecrementCounted(h: Heap, p: Ptr, owned: multiset<Ptr>)
    requires Counted(h, owned + multiset{p}) && p in h && 1 < h[p].strong
    ensures Counted(h[p := h[p].(strong := h[p].strong - 1)], owned)
    ensures Nodes(h[p := h[p].(strong := h[p].strong - 1)]) == Nodes(h)
  {
    var k := h[p := h[p].(strong := h[p].strong - 1)];
    assert Nodes(k) == Nodes(h);
    forall q ensures CountedAt(k, owned, q) {
      assert CountedAt(h, owned + multiset{p}, q);
    }
  }

  /** Dropping the last reference destroys the object; what it held is now owned. */
  lemma DestroyCounted(h: Heap, p: Ptr, owned: multiset<Ptr>)
    requires Counted(h, owned + multiset{p}) && p in h && h[p].strong == 1
    ensures Counted(h - {p}, owned + multiset(h[p].node.Refs()))
    ensures Nodes(h - {p}) == Nodes(h) - {p}
  {
    var refs := multiset(h[p].node.Refs());
    assert Nodes(h - {p}) == Nodes(h) - {p};
    forall q ensures CountedAt(h - {p}, owned + refs, q) {
      assert CountedAt(h, owned + multiset{p}, q);
      HeldRemove(Nodes(h), p, q);
    }
  }

  // ---- Releasing a replaced resolver ----

  lemma LostUnderResolver(h: Heap, k: Heap, owned: multiset<Ptr>, o: Ptr, p: Ptr)
    requires Counted(h, owned + multiset{o}) && Typed(Nodes(h)) && o in h && h[o].node.IsResolver()
    requires Counted(k, owned) && (forall q :: q in k ==> q in h && k[q].node == h[q].node)
    requires p in h && p !in k && p != o
    ensures h[p].node.Refs() == []
  {
    var g := Nodes(h);
    CountedReachable(h, owned + multiset{o}, p);
    var path :| Path(g, owned + multiset{o}, path, p);
    if path[0] in owned {
      CountedClosed(k, owned);
      assert Path(g, owned, path, p);
      PathStays(g, Nodes(k), owned, path, p);
    } else {
      assert path[1] in g[o].Refs() && TypedNode(g, g[o]);
      assert |path| > 2 ==> path[2] in g[path[1]].Refs();
    }
  }

  /** When the sole owner of a resolver drops it, exactly the resolver's own key
      references are given back: one per occurrence in its list. */
  lemma ResolverReleased(h: Heap, k: Heap, owned: multiset<Ptr>, o: Ptr)
    requires Counted(h, owned + multiset{o}) && Typed(Nodes(h)) && o in h && h[o].node.IsResolver()
    requires h[o].strong == 1
    requires Counted(k, owned) && (forall q :: q in k ==> q in h && k[q].node == h[q].node)
    ensures o !in k
    ensures forall p :: p in k ==> h[p].strong == k[p].strong + multiset(h[o].node.Refs())[p]
  {
    var g, lost := Nodes(h), Nodes(h) - Nodes(k).Keys;
    assert forall q :: q in Nodes(k) ==> q in g && g[q] == Nodes(k)[q];
    SubgraphSplits(g, Nodes(k));
    HeldSplit(g, Nodes(k), lost, o);
    assert CountedAt(h, owned + multiset{o}, o) && CountedAt(k, owned, o);
    assert o !in k;
    forall p | p in lost - {o} ensures (lost - {o})[p].Refs() == [] {
      LostUnderResolver(h, k, owned, o, p);
    }
    forall p | p in k ensures h[p].strong == k[p].strong + multiset(h[o].node.Refs())[p] {
      assert CountedAt(h, owned + multiset{o}, p) && CountedAt(k, owned, p);
      HeldSplit(g, Nodes(k), lost, p);
      HeldRemove(lost, o, p);
      HeldByLeaves(lost - {o}, p);
    }
  }

  lemma CollectSameRoots(g: Graph, roots: multiset<Ptr>, others: multiset<Ptr>)
    requires forall p :: p in roots <==> p in others
    ensures Collect(g, roots) == Collect(g, others)
  {
    forall p, path ensures Path(g, roots, path, p) <==> Path(g, others, path, p) {}
    assert forall p :: Reachable(g, roots, p) <==> Reachable(g, others, p);
  }
}
