/**
 The C API calls that create, share and release handles, over the counted heap.

 The address of each new object is the allocator's choice and is a parameter `at`;
 parsing, TLS set-up and panics are outcomes chosen by the environment.
 */
module HandleApi {
  import opened Base
  import opened HandleHeap
  import ResultCodes

  type Code = ResultCodes.Code

  /** How rustls answers when asked for a connection. */
  datatype Outcome = Created | Refused(code: Code) | Panicked

  ghost function Roots(handles: set<Ptr>): multiset<Ptr> {
    multiset(handles)
  }

  lemma RootsChange(handles: set<Ptr>, p: Ptr)
    ensures p !in handles ==> Roots(handles + {p}) == Roots(handles) + multiset{p}
    ensures p in handles ==> Roots(handles) == Roots(handles - {p}) + multiset{p}
  {
  }

  /** C only holds pointers to live objects, and never to a resolver. */
  ghost predicate Exported(g: Graph, handles: set<Ptr>) {
    forall p :: p in handles ==> p in g && !g[p].IsResolver()
  }

  lemma PartsCounted(side: Side, v: Option<Ptr>, r: Option<Ptr>)
    ensures multiset(Builder(side, v, r).Refs()) == multiset(Listed(v)) + multiset(Listed(r))
    ensures multiset(Config(side, v, r).Refs()) == multiset(Listed(v)) + multiset(Listed(r))
  {
  }

  /** The keys of the resolver that builder `b` currently holds. */
  function CurrentKeys(g: Graph, b: Ptr): seq<Ptr> {
    if b in g && g[b].Builder? && g[b].resolver.Some? && g[b].resolver.value in g
       && g[g[b].resolver.value].KeyResolver?
    then g[g[b].resolver.value].keys
    else []
  }

  /** Every non-NULL element of a C array of keys is a key that C may still use. */
  ghost predicate LiveKeys(g: Graph, handles: set<Ptr>, ptrs: seq<Option<Ptr>>) {
    forall i :: 0 <= i < |ptrs| && ptrs[i].Some? ==>
      ptrs[i].value in handles && ptrs[i].value in g && g[ptrs[i].value].Key?
  }

  ghost predicate AllKeys(g: Graph, ptrs: seq<Ptr>) {
    forall i :: 0 <= i < |ptrs| ==> ptrs[i] in g && g[ptrs[i]].Key?
  }

  function KeysCode(builder: Option<Ptr>, keys: Option<seq<Option<Ptr>>>): Code {
    if builder.Some? && keys.Some? && None !in keys.value then ResultCodes.OK else ResultCodes.NULL_PARAMETER
  }

  /** The objects once builder `b` holds the new resolver `n` at address `at`. */
  ghost function WithResolver(g: Graph, handles: set<Ptr>, b: Ptr, n: Node, at: Ptr): Graph
    requires b in g && g[b].Builder?
  {
    Collect(g[at := n][b := g[b].(resolver := Some(at))], Roots(handles))
  }

  /** What C holds is kept by the collector, and so is a resolver that a held builder refers to. */
  lemma HandleKept(g: Graph, handles: set<Ptr>, p: Ptr)
    requires p in handles && p in g
    ensures p in Collect(g, Roots(handles)) && Collect(g, Roots(handles))[p] == g[p]
  {
    assert Path(g, Roots(handles), [p], p);
  }

  /** Builder `b` is as before, except that its resolver is at `at`. */
  ghost predicate HoldsResolver(h: Heap, b: Ptr, was: Node, at: Ptr) {
    && b in h && at in h
    && was.Builder? && h[b].node == Builder(was.side, was.verifier, Some(at))
  }

  lemma ResolverInPlace(before: Heap, after: Heap, handles: set<Ptr>, b: Ptr, n: Node, at: Ptr)
    requires b in handles && b in before && before[b].node.Builder? && at !in before
    requires Nodes(after) == WithResolver(Nodes(before), handles, b, n, at)
    ensures HoldsResolver(after, b, before[b].node, at) && after[at].node == n
  {
    var changed := Nodes(before)[at := n][b := before[b].node.(resolver := Some(at))];
    HandleKept(changed, handles, b);
    assert Path(changed, Roots(handles), [b, at], at);
    assert b in Nodes(after) && at in Nodes(after);
  }

  /** Builder `b` now holds a fresh resolver for `keys`; each key gained one count per
      occurrence in `keys` and lost one per occurrence in the replaced resolver. */
  ghost predicate KeysInstalled(before: Heap, after: Heap, handles: set<Ptr>, b: Ptr, keys: seq<Ptr>, at: Ptr)
    requires b in before && before[b].node.Builder?
  {
    && Nodes(after) == WithResolver(Nodes(before), handles, b, KeyResolver(keys), at)
    && forall k :: k in after && k in before && before[k].node.Key? ==>
         after[k].strong + multiset(CurrentKeys(Nodes(before), b))[k] == before[k].strong + multiset(keys)[k]
  }

  /** The pointers of a list, NULLs left out. */
  function Values(ptrs: seq<Option<Ptr>>): (vs: seq<Ptr>)
    ensures None !in ptrs ==> |vs| == |ptrs| && forall i :: 0 <= i < |ptrs| ==> ptrs[i] == Some(vs[i])
  {
    if ptrs == [] then [] else Values(ptrs[..|ptrs| - 1]) + Listed(ptrs[|ptrs| - 1])
  }

  predicate NoNull(ptrs: seq<Option<Ptr>>) {
    forall i :: 0 <= i < |ptrs| ==> ptrs[i].Some?
  }

  lemma NoNullIff(ptrs: seq<Option<Ptr>>)
    ensures NoNull(ptrs) <==> None !in ptrs
    ensures NoNull(ptrs) ==> SameKeys(Values(ptrs), ptrs)
  {
    if None in ptrs {
      var i :| 0 <= i < |ptrs| && ptrs[i] == None;
    }
  }

  /** The keys of a resolver are those of the C array, in order and with repetitions. */
  predicate SameKeys(keys: seq<Ptr>, ptrs: seq<Option<Ptr>>) {
    |keys| == |ptrs| && forall i :: 0 <= i < |ptrs| ==> ptrs[i] == Some(keys[i])
  }

  /** Collecting keeps everything that C holds. */
  lemma StillExported(g: Graph, after: Heap, handles: set<Ptr>)
    requires Exported(g, handles) && Counted(after, Roots(handles)) && Nodes(after) == Collect(g, Roots(handles))
    ensures Exported(Nodes(after), handles)
  {
    CountedClosed(after, Roots(handles));
    forall p | p in handles ensures p in Nodes(after) && !Nodes(after)[p].IsResolver() {
      assert p in Roots(handles);
    }
  }

  lemma ResolverExported(before: Heap, after: Heap, handles: set<Ptr>, b: Ptr, n: Node, at: Ptr)
    requires b in before && before[b].node.Builder? && at !in before
    requires Exported(Nodes(before), handles) && Counted(after, Roots(handles))
    requires Nodes(after) == WithResolver(Nodes(before), handles, b, n, at)
    ensures Exported(Nodes(after), handles)
  {
    StillExported(Nodes(before)[at := n][b := before[b].node.(resolver := Some(at))], after, handles);
  }

  predicate IsBuilder(n: Node, side: Side) {
    n.Builder? && n.side == side
  }

  /** What the constructors of the API return: a key, a verifier, or a builder without settings. */
  predicate Creatable(n: Node) {
    n.Key? || n.Verifier? || (n.Builder? && n.verifier.None? && n.resolver.None?)
  }

  /** A server cannot be built without a certificate resolver. */
  predicate Buildable(n: Node) {
    n.Builder? && (n.side == Server ==> n.resolver.Some?)
  }

  function Built(n: Node): Node
    requires n.Builder?
  {
    Config(n.side, n.verifier, n.resolver)
  }

  function ConnectionCode(config: Option<Ptr>, outcome: Outcome): Code {
    if config.None? then ResultCodes.NULL_PARAMETER
    else match outcome
         case Created => ResultCodes.OK
         case Refused(code) => code
         case Panicked => ResultCodes.PANIC
  }

  /** Boxes are referred to by C only. */
  lemma NeverHeld(g: Graph, b: Ptr)
    requires Typed(g) && b in g && g[b].Builder?
    ensures Held(g, b) == 0
  {
    forall q | q in g ensures b !in g[q].Refs() {
      assert TypedNode(g, g[q]);
    }
    if Held(g, b) > 0 {
      var q := HolderOf(g, b);
    }
  }

  lemma UnboxedSound(h: Heap, b: Ptr, owned: multiset<Ptr>)
    requires Sound(h) && b in h && h[b].node.Builder? && Counted(h - {b}, owned)
    ensures Sound(h - {b}) && TypedNode(Nodes(h - {b}), h[b].node)
  {
    CountedClosed(h - {b}, owned);
    SoundShrinks(h, h - {b});
    assert TypedNode(Nodes(h), Nodes(h)[b]);
    TypedNodeCarries(Nodes(h), Nodes(h - {b}), h[b].node);
  }

  lemma {:induction false} ValuesLive(g: Graph, handles: set<Ptr>, ptrs: seq<Option<Ptr>>)
    requires LiveKeys(g, handles, ptrs)
    ensures forall k :: k in Values(ptrs) ==> k in handles && k in g && g[k].Key?
  {
    if ptrs == [] {
    } else {
      ValuesLive(g, handles, ptrs[..|ptrs| - 1]);
    }
  }

  /** With the same objects, counts differ by exactly the extra owners. */
  lemma SameNodesDelta(h: Heap, k: Heap, owned: multiset<Ptr>, extra: multiset<Ptr>)
    requires Counted(h, owned + extra) && Counted(k, owned) && Nodes(h) == Nodes(k)
    ensures forall p :: p in k ==> p in h && h[p].strong == k[p].strong + extra[p]
  {
    forall p | p in k ensures p in h && h[p].strong == k[p].strong + extra[p] {
      assert p in Nodes(h);
      assert CountedAt(h, owned + extra, p) && CountedAt(k, owned, p);
    }
  }

  lemma ValuesSnoc(ptrs: seq<Option<Ptr>>, i: nat)
    requires i < |ptrs| && None !in ptrs[..i] && ptrs[i].Some?
    ensures None !in ptrs[..i + 1]
    ensures Values(ptrs[..i + 1]) == Values(ptrs[..i]) + [ptrs[i].value]
  {
  }

  lemma OwnedSnoc(owned: multiset<Ptr>, taken: seq<Ptr>, p: Ptr)
    ensures owned + multiset(taken) + multiset(Listed(Some(p))) == owned + multiset(taken + [p])
    ensures owned + multiset(taken) + multiset{p} == owned + multiset(taken + [p])
  {
  }

  class Process {
    var heap: Heap
    /** The pointers C has been given and must still free. */
    ghost var handles: set<Ptr>

    ghost function Objects(): Graph
      reads this
    {
      Nodes(heap)
    }

    ghost predicate Valid()
      reads this
    {
      && Counted(heap, Roots(handles))
      && Sound(heap)
      && Exported(Objects(), handles)
    }

    constructor ()
      ensures Valid() && heap == map[] && handles == {}
    {
      heap, handles := map[], {};
    }

    // ---- Building blocks ----

    /** Objects only disappear and counts only fall. */
    twostate predicate Shrinks()
      reads this
    {
      forall p :: p in heap ==>
        p in old(heap) && heap[p].node == old(heap)[p].node && heap[p].strong <= old(heap)[p].strong
    }

    /** Give back one count of `p`; when it was the last, the object is destroyed and its fields
        remain to be dropped. */
    method DropOne(p: Ptr, ghost owned: multiset<Ptr>) returns (fields: seq<Ptr>)
      requires Counted(heap, owned + multiset{p})
      modifies this`heap
      ensures Counted(heap, owned + multiset(fields)) && Shrinks()
      ensures |heap| < |old(heap)| || (|heap| == |old(heap)| && fields == [])
    {
      assert CountedAt(heap, owned + multiset{p}, p);
      if heap[p].strong > 1 {
        DecrementCounted(heap, p, owned);
        assert owned + multiset([]) == owned;
        heap := heap[p := heap[p].(strong := heap[p].strong - 1)];
        assert heap.Keys == old(heap).Keys;
        fields := [];
      } else {
        DestroyCounted(heap, p, owned);
        fields := heap[p].node.Refs();
        heap := heap - {p};
        assert heap.Keys == old(heap).Keys - {p};
      }
    }

    /** Drop glue: give back one count for each of `refs`, destroying what reaches
        zero and dropping its fields in turn. `owned` is what remains owned. */
    method DropRefs(refs: seq<Ptr>, ghost owned: multiset<Ptr>)
      requires Counted(heap, owned + multiset(refs)) && Sound(heap)
      modifies this`heap
      ensures Counted(heap, owned) && Sound(heap)
      ensures Objects() == Collect(old(Objects()), owned)
      ensures forall p :: p in heap ==> p in old(heap) && heap[p].node == old(heap)[p].node
    {
      var work := refs;
      while work != []
        invariant Counted(heap, owned + multiset(work)) && Shrinks()
        decreases |heap|, |work|
      {
        var p, rest := work[0], work[1..];
        assert work == [p] + rest;
        assert owned + multiset(work) == owned + multiset(rest) + multiset{p};
        var fields := DropOne(p, owned + multiset(rest));
        assert owned + multiset(rest) + multiset(fields) == owned + multiset(fields + rest);
        work := fields + rest;
      }
      assert owned + multiset(work) == owned;
      CountedClosed(heap, owned);
      SoundShrinks(old(heap), heap);
      CountedIsCollected(old(Objects()), heap, owned);
    }

    /** `ArcCastPtr::to_arc`: rebuild the Arc, clone it, forget the rebuilt one. */
    method ToArc(ptr: Option<Ptr>, ghost owned: multiset<Ptr>) returns (arc: Option<Ptr>)
      requires Counted(heap, owned) && Sound(heap)
      requires ptr.Some? ==> ptr.value in heap && !heap[ptr.value].node.IsResolver()
      modifies this`heap
      ensures arc == ptr
      ensures heap == if ptr.None? then old(heap) else Retain(old(heap), ptr.value)
      ensures Counted(heap, owned + multiset(Listed(ptr))) && Sound(heap) && Objects() == old(Objects())
    {
      if ptr.None? {
        assert owned + multiset(Listed(ptr)) == owned;
        return None;
      }
      RetainCounted(heap, ptr.value, owned);
      assert multiset(Listed(ptr)) == multiset{ptr.value};
      heap := Retain(heap, ptr.value);
      arc := ptr;
    }

    /** Put a new object on the heap; it takes over the owned references in its fields. */
    method Alloc(at: Ptr, n: Node, ghost owned: multiset<Ptr>)
      requires Counted(heap, owned + multiset(n.Refs())) && Sound(heap)
      requires at !in heap && TypedNode(Objects(), n)
      modifies this`heap
      ensures Counted(heap, owned + multiset{at}) && Sound(heap)
      ensures heap == old(heap)[at := Cell(1, n)] && Objects() == old(Objects())[at := n]
    {
      AllocCounted(heap, at, n, owned);
      TypedInsert(Objects(), at, n);
      heap := heap[at := Cell(1, n)];
    }

    /** Allocate an object and give C its address. */
    method AllocHandle(at: Ptr, n: Node)
      requires Counted(heap, Roots(handles) + multiset(n.Refs())) && Sound(heap) && Exported(Objects(), handles)
      requires at !in heap && TypedNode(Objects(), n) && !n.IsResolver()
      modifies this
      ensures Valid() && handles == old(handles) + {at}
      ensures heap == old(heap)[at := Cell(1, n)] && Objects() == old(Objects())[at := n]
    {
      assert at !in handles by { assert at !in Objects(); }
      RootsChange(handles, at);
      Alloc(at, n, Roots(handles));
      handles := handles + {at};
    }

    /** Overwrite a builder in place: `moved` references go in, `out` come out. */
    method Assign(b: Ptr, n: Node, ghost owned: multiset<Ptr>, ghost moved: multiset<Ptr>, ghost out: multiset<Ptr>)
      requires Counted(heap, owned + moved) && Sound(heap)
      requires b in heap && heap[b].node.Builder? && n.Builder? && TypedNode(Objects(), n)
      requires multiset(n.Refs()) + out == multiset(heap[b].node.Refs()) + moved
      modifies this`heap
      ensures Counted(heap, owned + out) && Sound(heap)
      ensures heap == old(heap)[b := old(heap)[b].(node := n)] && Objects() == old(Objects())[b := n]
    {
      ReplaceCounted(heap, b, n, owned, moved, out);
      TypedInsert(Objects(), b, n);
      heap := heap[b := heap[b].(node := n)];
    }

    // ---- API calls ----

    /** The constructors that return an object without references of its own:
        keys, verifiers and builders. A failure returns before anything is allocated. */
    method Create(at: Ptr, n: Node, failure: Option<Code>) returns (out: Option<Ptr>)
      requires Valid() && at !in heap
      requires Creatable(n)
      modifies this
      ensures Valid()
      ensures failure.Some? ==> out == None && heap == old(heap) && handles == old(handles)
      ensures failure.None? ==>
        out == Some(at) && Objects() == old(Objects())[at := n] && handles == old(handles) + {at}
    {
      if failure.Some? {
        return None;
      }
      assert Roots(handles) + multiset(n.Refs()) == Roots(handles);
      AllocHandle(at, n);
      out := Some(at);
    }

    /** Every `_free`: rebuild the Arc or Box from the raw pointer and drop it. */
    method Free(ptr: Option<Ptr>)
      requires Valid()
      requires ptr.Some? ==> ptr.value in handles
      modifies this
      ensures Valid()
      ensures handles == old(handles) - (if ptr.Some? then {ptr.value} else {})
      ensures Objects() == Collect(old(Objects()), Roots(handles))
    {
      if ptr.None? {
        CountedIsCollected(Objects(), heap, Roots(handles));
        return;
      }
      var p := ptr.value;
      RootsChange(handles, p);
      handles := handles - {p};
      assert multiset([p]) == multiset{p};
      DropRefs([p], Roots(handles));
      StillExported(old(Objects()), heap, handles);
    }

    /** `rustls_server_config_builder_set_client_verifier` and its `_optional` variant. */
    method SetClientVerifier(builder: Option<Ptr>, verifier: Option<Ptr>)
      requires Valid()
      requires builder.Some? ==> builder.value in handles && IsBuilder(heap[builder.value].node, Server)
      requires verifier.Some? ==> verifier.value in handles && heap[verifier.value].node.Verifier?
      modifies this`heap
      ensures Valid()
      ensures builder.None? || verifier.None? ==> heap == old(heap)
      ensures builder.Some? && verifier.Some? ==>
        var b := builder.value;
        && Objects() == Collect(old(Objects())[b := old(heap)[b].node.(verifier := verifier)], Roots(handles))
        && b in heap && heap[b].node == Builder(Server, verifier, old(heap)[b].node.resolver)
    {
      if builder.None? {
        return;
      }
      var arc := ToArc(verifier, Roots(handles));
      if arc.None? {
        return;
      }
      var b, node := builder.value, heap[builder.value].node;
      assert TypedNode(Objects(), Objects()[b]);
      PartsCounted(node.side, node.verifier, node.resolver);
      PartsCounted(node.side, arc, node.resolver);
      Assign(b, node.(verifier := arc), Roots(handles), multiset(Listed(arc)), multiset(Listed(node.verifier)));
      DropRefs(Listed(node.verifier), Roots(handles));
      StillExported(old(Objects())[b := node.(verifier := arc)], heap, handles);
      HandleKept(old(Objects())[b := node.(verifier := arc)], handles, b);
    }

    /** Drop the replaced resolver; the counts that fall are those of its own keys. */
    method DropResolver(r: Option<Ptr>, ghost owned: multiset<Ptr>)
      requires Counted(heap, owned + multiset(Listed(r))) && Sound(heap)
      requires r.Some? ==> r.value in heap && heap[r.value].node.IsResolver()
      modifies this`heap
      ensures Counted(heap, owned) && Sound(heap)
      ensures Objects() == Collect(old(Objects()), owned)
      ensures forall p :: p in heap ==>
        && p in old(heap)
        && old(heap)[p].strong == heap[p].strong + (if r.Some? then multiset(old(heap)[r.value].node.Refs())[p] else 0)
    {
      DropRefs(Listed(r), owned);
      if r.Some? {
        assert CountedAt(old(heap), owned + multiset(Listed(r)), r.value);
        assert multiset(Listed(r)) == multiset{r.value};
        ResolverReleased(old(heap), heap, owned, r.value);
      } else {
        assert owned + multiset(Listed(r)) == owned;
        CountedIsCollected(old(Objects()), old(heap), owned);
        CountsDetermined(old(heap), heap, owned);
      }
    }

    /** Allocate resolver `at` and move it into builder `b`; the replaced one comes out. */
    method PlaceResolver(b: Ptr, at: Ptr, n: Node, ghost owned: multiset<Ptr>) returns (replaced: Option<Ptr>)
      requires Counted(heap, owned + multiset(n.Refs())) && Sound(heap)
      requires at !in heap && n.IsResolver() && TypedNode(Objects(), n)
      requires b in heap && heap[b].node.Builder?
      modifies this`heap
      ensures replaced == old(heap)[b].node.resolver
      ensures Counted(heap, owned + multiset(Listed(replaced))) && Sound(heap)
      ensures heap == old(heap)[at := Cell(1, n)][b := old(heap)[b].(node := old(heap)[b].node.(resolver := Some(at)))]
      ensures Objects() == old(Objects())[at := n][b := old(heap)[b].node.(resolver := Some(at))]
      ensures replaced.Some? ==> replaced.value in old(heap) && old(heap)[replaced.value].node.IsResolver()
    {
      var node := heap[b].node;
      replaced := node.resolver;
      assert TypedNode(Objects(), Objects()[b]);
      Alloc(at, n, owned);
      PartsCounted(node.side, node.verifier, node.resolver);
      PartsCounted(node.side, node.verifier, Some(at));
      Assign(b, node.(resolver := Some(at)), owned, multiset{at}, multiset(Listed(replaced)));
    }

    /** Install a new resolver in builder `b` and drop the one it replaces. */
    method InstallResolver(b: Ptr, at: Ptr, n: Node, ghost owned: multiset<Ptr>)
      requires Counted(heap, owned + multiset(n.Refs())) && Sound(heap)
      requires at !in heap && n.IsResolver() && TypedNode(Objects(), n)
      requires b in heap && heap[b].node.Builder?
      modifies this`heap
      ensures Counted(heap, owned) && Sound(heap)
      ensures Objects() == Collect(old(Objects())[at := n][b := old(heap)[b].node.(resolver := Some(at))], owned)
      ensures forall p :: p in heap && p != at ==>
        && p in old(heap)
        && old(heap)[p].strong == heap[p].strong + multiset(CurrentKeys(old(Objects()), b))[p]
    {
      var replaced := PlaceResolver(b, at, n, owned);
      DropResolver(replaced, owned);
    }

    /** `rustls_server_config_builder_set_hello_callback`. */
    method SetHelloCallback(builder: Option<Ptr>, hasCallback: bool, at: Ptr) returns (code: Code)
      requires Valid() && at !in heap
      requires builder.Some? ==> builder.value in handles && IsBuilder(heap[builder.value].node, Server)
      modifies this`heap
      ensures Valid()
      ensures code == if hasCallback && builder.Some? then ResultCodes.OK else ResultCodes.NULL_PARAMETER
      ensures code != ResultCodes.OK ==> heap == old(heap)
      ensures code == ResultCodes.OK ==>
        && Objects() == WithResolver(old(Objects()), handles, builder.value, HelloResolver, at)
        && HoldsResolver(heap, builder.value, old(heap)[builder.value].node, at) && heap[at].node == HelloResolver
    {
      if !hasCallback || builder.None? {
        return ResultCodes.NULL_PARAMETER;
      }
      assert Roots(handles) + multiset(HelloResolver.Refs()) == Roots(handles);
      InstallResolver(builder.value, at, HelloResolver, Roots(handles));
      ResolverExported(old(heap), heap, handles, builder.value, HelloResolver, at);
      ResolverInPlace(old(heap), heap, handles, builder.value, HelloResolver, at);
      code := ResultCodes.OK;
    }

    /** Drop a vector of counts taken since the state `before`. */
    method GiveBack(taken: seq<Ptr>, ghost before: Heap)
      requires Counted(heap, Roots(handles) + multiset(taken)) && Sound(heap)
      requires Counted(before, Roots(handles)) && Objects() == Nodes(before)
      modifies this`heap
      ensures heap == before
    {
      DropRefs(taken, Roots(handles));
      CountedIsCollected(Nodes(before), before, Roots(handles));
      CountsDetermined(heap, before, Roots(handles));
    }

    /** The loop that turns a C array of key pointers into a vector of Arcs. A NULL
        returns early, which drops the vector collected so far. */
    method TakeKeys(ptrs: seq<Option<Ptr>>) returns (ok: bool, taken: seq<Ptr>)
      requires Valid() && LiveKeys(Objects(), handles, ptrs)
      modifies this`heap
      ensures Sound(heap) && Objects() == old(Objects())
      ensures ok <==> None !in ptrs
      ensures ok ==> taken == Values(ptrs) && Counted(heap, Roots(handles) + multiset(taken))
      ensures !ok ==> heap == old(heap)
    {
      ok, taken := true, [];
      assert Roots(handles) + multiset(taken) == Roots(handles);
      var i := 0;
      while i < |ptrs|
        invariant 0 <= i <= |ptrs| && None !in ptrs[..i]
        invariant taken == Values(ptrs[..i])
        invariant Sound(heap) && Objects() == old(Objects())
        invariant Counted(heap, Roots(handles) + multiset(taken))
      {
        assert ptrs[i].Some? ==> ptrs[i].value in Objects() && Objects()[ptrs[i].value].Key?;
        var arc := ToArc(ptrs[i], Roots(handles) + multiset(taken));
        if arc.None? {
          assert multiset(Listed(arc)) == multiset{};
          GiveBack(taken, old(heap));
          ok := false;
          return;
        }
        ValuesSnoc(ptrs, i);
        OwnedSnoc(Roots(handles), taken, arc.value);
        taken := taken + [arc.value];
        i := i + 1;
      }
      assert ptrs[..i] == ptrs;
    }

    /** `Vec::from(choices)`: the server resolver clones each Arc of the borrowed vector. */
    method CloneAll(taken: seq<Ptr>, ghost owned: multiset<Ptr>)
      requires Counted(heap, owned) && Sound(heap) && AllKeys(Objects(), taken)
      modifies this`heap
      ensures Counted(heap, owned + multiset(taken)) && Sound(heap) && Objects() == old(Objects())
    {
      var j := 0;
      assert owned + multiset(taken[..0]) == owned;
      while j < |taken|
        invariant 0 <= j <= |taken|
        invariant Sound(heap) && Objects() == old(Objects()) && AllKeys(Objects(), taken)
        invariant Counted(heap, owned + multiset(taken[..j]))
      {
        var _ := ToArc(Some(taken[j]), owned + multiset(taken[..j]));
        OwnedSnoc(owned, taken[..j], taken[j]);
        assert taken[..j + 1] == taken[..j] + [taken[j]];
        j := j + 1;
      }
      assert taken[..j] == taken;
    }

    /** The caller's obligations shared by the server's `set_certified_keys`
        and the client's `set_certified_key`. */
    ghost predicate KeysCallable(side: Side, builder: Option<Ptr>, keys: Option<seq<Option<Ptr>>>, at: Ptr)
      reads this
    {
      && Valid() && at !in heap
      && (builder.Some? ==> builder.value in handles && IsBuilder(heap[builder.value].node, side))
      && (keys.Some? ==> LiveKeys(Objects(), handles, keys.value))
    }

    /** `rustls_server_config_builder_set_certified_keys`. */
    method SetCertifiedKeys(builder: Option<Ptr>, keys: Option<seq<Option<Ptr>>>, at: Ptr) returns (code: Code)
      requires KeysCallable(Server, builder, keys, at)
      modifies this`heap
      ensures Valid()
      ensures code == KeysCode(builder, keys)
      ensures code != ResultCodes.OK ==> heap == old(heap)
      ensures code == ResultCodes.OK ==> KeysInstalled(old(heap), heap, handles, builder.value, Values(keys.value), at)
      ensures code == 7000 <==> builder.Some? && keys.Some? && NoNull(keys.value)
      ensures code != 7000 ==> code == 7002
      ensures code == 7000 ==>
        && HoldsResolver(heap, builder.value, old(heap)[builder.value].node, at)
        && heap[at].node.KeyResolver? && SameKeys(heap[at].node.keys, keys.value)
    {
      if builder.None? || keys.None? {
        return ResultCodes.NULL_PARAMETER;
      }
      NoNullIff(keys.value);
      var ok, taken := TakeKeys(keys.value);
      if !ok {
        return ResultCodes.NULL_PARAMETER;
      }
      ValuesLive(Objects(), handles, keys.value);
      InstallCopied(builder.value, taken, at, old(heap));
      ResolverExported(old(heap), heap, handles, builder.value, KeyResolver(taken), at);
      ResolverInPlace(old(heap), heap, handles, builder.value, KeyResolver(taken), at);
      code := ResultCodes.OK;
    }

    /** The server's resolver clones the counts and the vector's own are dropped afterwards. */
    method InstallCopied(b: Ptr, taken: seq<Ptr>, at: Ptr, ghost before: Heap)
      requires Counted(before, Roots(handles)) && Nodes(before) == Objects()
      requires Counted(heap, Roots(handles) + multiset(taken)) && Sound(heap)
      requires at !in before && b in before && before[b].node.Builder?
      requires forall k :: k in taken ==> k in handles && k in Objects() && Objects()[k].Key?
      modifies this`heap
      ensures Counted(heap, Roots(handles)) && Sound(heap)
      ensures KeysInstalled(before, heap, handles, b, taken, at)
    {
      InstallClones(b, taken, at, before);
      Settle(taken);
    }

    /** The clones of a vector of keys that are taken already: each key gains two holders in all. */
    method CloneTaken(taken: seq<Ptr>, ghost before: Heap)
      requires Counted(before, Roots(handles)) && Nodes(before) == Objects()
      requires Counted(heap, Roots(handles) + multiset(taken)) && Sound(heap) && AllKeys(Objects(), taken)
      modifies this`heap
      ensures Counted(heap, Roots(handles) + multiset(taken) + multiset(taken)) && Sound(heap)
      ensures Objects() == old(Objects())
      ensures forall p :: p in heap ==> p in before && heap[p].strong == before[p].strong + 2 * multiset(taken)[p]
    {
      ghost var twice := multiset(taken) + multiset(taken);
      CloneAll(taken, Roots(handles) + multiset(taken));
      assert Roots(handles) + multiset(taken) + multiset(taken) == Roots(handles) + twice;
      SameNodesDelta(heap, before, Roots(handles), twice);
      assert Nodes(heap).Keys == heap.Keys && Nodes(before).Keys == before.Keys;
      assert forall p :: twice[p] == 2 * multiset(taken)[p];
    }

    /** `Arc::new(ResolvesServerCertFromChoices::new(&keys))` stored in the builder while
        the vector it was cloned from is still alive: each key is held twice. */
    method InstallClones(b: Ptr, taken: seq<Ptr>, at: Ptr, ghost before: Heap)
      requires Counted(before, Roots(handles)) && Nodes(before) == Objects()
      requires Counted(heap, Roots(handles) + multiset(taken)) && Sound(heap)
      requires at !in before && b in before && before[b].node.Builder?
      requires forall k :: k in taken ==> k in handles && k in Objects() && Objects()[k].Key?
      modifies this`heap
      ensures Counted(heap, Roots(handles) + multiset(taken)) && Sound(heap)
      ensures Objects() == WithResolver(Nodes(before), handles, b, KeyResolver(taken), at)
      ensures forall p :: p in heap && p in before ==>
        heap[p].strong + multiset(CurrentKeys(Nodes(before), b))[p] == before[p].strong + 2 * multiset(taken)[p]
    {
      ghost var owned, g := Roots(handles) + multiset(taken), Objects();
      assert at !in g && b in g && g[b].Builder?;
      CloneTaken(taken, before);
      assert at !in Objects();
      InstallResolver(b, at, KeyResolver(taken), owned);
      CollectSameRoots(g[at := KeyResolver(taken)][b := g[b].(resolver := Some(at))], owned, Roots(handles));
    }

    /** Drop a vector of keys that C still holds as well: only the counts change. */
    method Settle(taken: seq<Ptr>)
      requires Counted(heap, Roots(handles) + multiset(taken)) && Sound(heap)
      requires forall k :: k in taken ==> k in handles
      modifies this`heap
      ensures Counted(heap, Roots(handles)) && Sound(heap)
      ensures Objects() == old(Objects()) == Collect(old(Objects()), Roots(handles))
      ensures forall p :: p in heap ==> p in old(heap) && old(heap)[p].strong == heap[p].strong + multiset(taken)[p]
    {
      ghost var owned := Roots(handles) + multiset(taken);
      CountedIsCollected(Objects(), heap, owned);
      CollectSameRoots(Objects(), owned, Roots(handles));
      DropRefs(taken, Roots(handles));
      SameNodesDelta(old(heap), heap, Roots(handles), multiset(taken));
    }

    /** `rustls_client_config_builder_set_certified_key`: the vector moves into the resolver. */
    method SetCertifiedKey(builder: Option<Ptr>, keys: Option<seq<Option<Ptr>>>, at: Ptr) returns (code: Code)
      requires KeysCallable(Client, builder, keys, at)
      modifies this`heap
      ensures Valid()
      ensures code == KeysCode(builder, keys)
      ensures code != ResultCodes.OK ==> heap == old(heap)
      ensures code == ResultCodes.OK ==> KeysInstalled(old(heap), heap, handles, builder.value, Values(keys.value), at)
      ensures code == 7000 <==> builder.Some? && keys.Some? && NoNull(keys.value)
      ensures code != 7000 ==> code == 7002
      ensures code == 7000 ==>
        && HoldsResolver(heap, builder.value, old(heap)[builder.value].node, at)
        && heap[at].node.KeyResolver? && SameKeys(heap[at].node.keys, keys.value)
    {
      if builder.None? || keys.None? {
        return ResultCodes.NULL_PARAMETER;
      }
      NoNullIff(keys.value);
      var ok, taken := TakeKeys(keys.value);
      if !ok {
        return ResultCodes.NULL_PARAMETER;
      }
      ValuesLive(Objects(), handles, keys.value);
      InstallMoved(builder.value, taken, at, old(heap));
      ResolverExported(old(heap), heap, handles, builder.value, KeyResolver(taken), at);
      ResolverInPlace(old(heap), heap, handles, builder.value, KeyResolver(taken), at);
      code := ResultCodes.OK;
    }

    /** The client's resolver takes over the counts that the vector holds. */
    method InstallMoved(b: Ptr, taken: seq<Ptr>, at: Ptr, ghost before: Heap)
      requires Counted(before, Roots(handles)) && Nodes(before) == Objects()
      requires Counted(heap, Roots(handles) + multiset(taken)) && Sound(heap)
      requires at !in before && b in before && before[b].node.Builder?
      requires forall k :: k in taken ==> k in Objects() && Objects()[k].Key?
      modifies this`heap
      ensures Counted(heap, Roots(handles)) && Sound(heap)
      ensures KeysInstalled(before, heap, handles, b, taken, at)
    {
      assert at !in Objects() && b in Objects() && Objects()[b].Builder?;
      SameNodesDelta(heap, before, Roots(handles), multiset(taken));
      InstallResolver(b, at, KeyResolver(taken), Roots(handles));
    }

    /** Take the builder out of its Box: its fields are now owned by the running code. */
    method Unbox(b: Ptr) returns (node: Node)
      requires Valid() && b in handles && heap[b].node.Builder?
      modifies this
      ensures node == old(heap)[b].node && Objects() == old(Objects()) - {b} && handles == old(handles) - {b}
      ensures Counted(heap, Roots(handles) + multiset(node.Refs())) && Sound(heap)
      ensures TypedNode(Objects(), node) && Exported(Objects(), handles)
    {
      node := heap[b].node;
      RootsChange(handles, b);
      NeverHeld(Objects(), b);
      assert CountedAt(heap, Roots(handles), b);
      handles := handles - {b};
      DestroyCounted(heap, b, Roots(handles));
      UnboxedSound(heap, b, Roots(handles) + multiset(node.Refs()));
      heap := heap - {b};
    }

    /** `rustls_{client,server}_config_builder_build`: the builder is consumed in any case;
        a server builder without a certificate resolver yields NULL. */
    method Build(builder: Option<Ptr>, at: Ptr) returns (out: Option<Ptr>)
      requires Valid() && at !in heap
      requires builder.Some? ==> builder.value in handles && heap[builder.value].node.Builder?
      modifies this
      ensures Valid()
      ensures out == if builder.Some? && Buildable(old(heap)[builder.value].node) then Some(at) else None
      ensures builder.None? ==> heap == old(heap) && handles == old(handles)
      ensures builder.Some? && out.None? ==>
        && handles == old(handles) - {builder.value}
        && Objects() == Collect(old(Objects()), Roots(handles))
      ensures out.Some? ==>
        && handles == old(handles) - {builder.value} + {at}
        && Objects() == (old(Objects()) - {builder.value})[at := Built(old(heap)[builder.value].node)]
      ensures builder.Some? ==>
        var n := old(heap)[builder.value].node;
        && (out.None? <==> n.side == Server && n.resolver.None?)
        && (out.Some? ==> at in heap && heap[at].node == Config(n.side, n.verifier, n.resolver))
    {
      if builder.None? {
        return None;
      }
      var node := Unbox(builder.value);
      if !Buildable(node) {
        Abandon(node, old(Objects()));
        return None;
      }
      assert at !in Objects();
      Finish(node, at);
      assert at in Objects();
      out := Some(at);
    }

    /** Return NULL: the fields taken out of the builder are dropped. */
    method Abandon(node: Node, ghost before: Graph)
      requires Counted(heap, Roots(handles) + multiset(node.Refs())) && Sound(heap) && Exported(Objects(), handles)
      requires forall p :: p in Objects() ==> p in before && before[p] == Objects()[p]
      modifies this`heap
      ensures Valid() && Objects() == Collect(before, Roots(handles))
    {
      DropRefs(node.Refs(), Roots(handles));
      CountedIsCollected(before, heap, Roots(handles));
      CountedClosed(heap, Roots(handles));
      assert forall p :: p in handles ==> p in Roots(handles);
    }

    /** `ArcCastPtr::to_const_ptr`: the fields move into the new config. */
    method Finish(node: Node, at: Ptr)
      requires Counted(heap, Roots(handles) + multiset(node.Refs())) && Sound(heap) && Exported(Objects(), handles)
      requires node.Builder? && TypedNode(Objects(), node) && at !in heap
      modifies this
      ensures Valid() && handles == old(handles) + {at} && Objects() == old(Objects())[at := Built(node)]
    {
      assert Built(node).Refs() == node.Refs();
      AllocHandle(at, Built(node));
    }

    /** `rustls_{client,server}_connection_new`: the connection keeps the count that `to_arc`
        took; a refusal (an invalid host name, an error of rustls) or a caught panic drops it
        again. A NULL host name is refused before a count is taken, to the same effect. */
    method ConnectionNew(config: Option<Ptr>, outcome: Outcome, at: Ptr) returns (code: Code)
      requires Valid() && at !in heap
      requires config.Some? ==> config.value in handles && heap[config.value].node.Config?
      requires outcome.Refused? ==> outcome.code != ResultCodes.OK
      modifies this
      ensures Valid()
      ensures code == ConnectionCode(config, outcome)
      ensures code == 7000 <==> config.Some? && outcome.Created?
      ensures config.None? ==> code == 7002
      ensures config.Some? && outcome.Refused? ==> code == outcome.code
      ensures config.Some? && outcome.Panicked? ==> code == 7004
      ensures code != ResultCodes.OK ==> heap == old(heap) && handles == old(handles)
      ensures code == ResultCodes.OK ==>
        && handles == old(handles) + {at}
        && Objects() == old(Objects())[at := Connection(config.value)]
        && heap[config.value].strong == old(heap)[config.value].strong + 1
    {
      var arc := ToArc(config, Roots(handles));
      if arc.None? {
        return ResultCodes.NULL_PARAMETER;
      }
      assert multiset([arc.value]) == multiset(Listed(arc));
      code := ConnectionCode(config, outcome);
      if outcome.Created? {
        assert at !in Objects() && Objects()[arc.value].Config?;
        AllocHandle(at, Connection(arc.value));
      } else {
        GiveBack([arc.value], old(heap));
      }
    }
  }
}