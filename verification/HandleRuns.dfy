/**
 Whole runs of handle calls. The specification has no counts at all: after every call
 the live objects are those that a tracing collector would keep from the pointers
 that C still holds. `Run` shows that the counted process does exactly that.
 */
module HandleRuns {
  import opened Base
  import opened HandleHeap
  import opened HandleApi
  import ResultCodes

  datatype World = World(objects: Graph, handles: set<Ptr>)

  datatype Call =
    | CreateCall(at: Ptr, node: Node, failure: Option<Code>)
    | FreeCall(ptr: Option<Ptr>)
    | SetVerifierCall(builder: Option<Ptr>, verifier: Option<Ptr>)
    | SetHelloCall(builder: Option<Ptr>, hasCallback: bool, at: Ptr)
    | SetKeysCall(side: Side, builder: Option<Ptr>, keys: Option<seq<Option<Ptr>>>, at: Ptr)
    | BuildCall(side: Side, builder: Option<Ptr>, at: Ptr)
    | ConnectCall(config: Option<Ptr>, outcome: Outcome, at: Ptr)

  ghost predicate LiveHandle(w: World, p: Option<Ptr>) {
    p.Some? ==> p.value in w.handles && p.value in w.objects
  }

  ghost predicate LiveBuilder(w: World, p: Option<Ptr>, side: Side) {
    LiveHandle(w, p) && (p.Some? ==> IsBuilder(w.objects[p.value], side))
  }

  /** What the documentation asks of C: pointers of the right type, not yet freed; and
      the allocator hands out addresses that are not in use. */
  ghost predicate Legal(w: World, c: Call) {
    match c
    case CreateCall(at, n, _) => at !in w.objects && Creatable(n)
    case FreeCall(p) => LiveHandle(w, p)
    case SetVerifierCall(b, v) =>
      LiveBuilder(w, b, Server) && LiveHandle(w, v) && (v.Some? ==> w.objects[v.value].Verifier?)
    case SetHelloCall(b, _, at) => LiveBuilder(w, b, Server) && at !in w.objects
    case SetKeysCall(side, b, keys, at) =>
      LiveBuilder(w, b, side) && at !in w.objects && (keys.Some? ==> LiveKeys(w.objects, w.handles, keys.value))
    case BuildCall(side, b, at) => LiveBuilder(w, b, side) && at !in w.objects
    case ConnectCall(cfg, outcome, at) =>
      && LiveHandle(w, cfg) && (cfg.Some? ==> w.objects[cfg.value].Config?) && at !in w.objects
      && (outcome.Refused? ==> outcome.code != ResultCodes.OK)
  }

  /** The world in which C holds `handles` and nothing unreachable is left. */
  ghost function Settled(g: Graph, handles: set<Ptr>): World {
    World(Collect(g, Roots(handles)), handles)
  }

  ghost function Effect(w: World, c: Call): World
    requires Legal(w, c)
  {
    var g, hs := w.objects, w.handles;
    match c
    case CreateCall(at, n, failure) =>
      if failure.Some? then w else World(g[at := n], hs + {at})
    case FreeCall(p) => Settled(g, hs - (if p.Some? then {p.value} else {}))
    case SetVerifierCall(b, v) =>
      if b.None? || v.None? then w else Settled(g[b.value := g[b.value].(verifier := v)], hs)
    case SetHelloCall(b, has, at) =>
      if b.None? || !has then w
      else World(WithResolver(g, hs, b.value, HelloResolver, at), hs)
    case SetKeysCall(_, b, keys, at) =>
      if KeysCode(b, keys) != ResultCodes.OK then w
      else World(WithResolver(g, hs, b.value, KeyResolver(Values(keys.value)), at), hs)
    case BuildCall(_, b, at) =>
      if b.None? then w
      else if !Buildable(g[b.value]) then Settled(g, hs - {b.value})
      else World((g - {b.value})[at := Built(g[b.value])], hs - {b.value} + {at})
    case ConnectCall(cfg, outcome, at) =>
      if ConnectionCode(cfg, outcome) != ResultCodes.OK then w
      else World(g[at := Connection(cfg.value)], hs + {at})
  }

  ghost predicate LegalRun(w: World, calls: seq<Call>)
    decreases calls
  {
    calls == [] || (Legal(w, calls[0]) && LegalRun(Effect(w, calls[0]), calls[1..]))
  }

  ghost function RunEffect(w: World, calls: seq<Call>): World
    requires LegalRun(w, calls)
    decreases calls
  {
    if calls == [] then w else RunEffect(Effect(w, calls[0]), calls[1..])
  }

  ghost function WorldOf(p: Process): World
    reads p
  {
    World(p.Objects(), p.handles)
  }

  method Invoke(p: Process, c: Call)
    requires p.Valid() && Legal(WorldOf(p), c)
    modifies p
    ensures p.Valid() && WorldOf(p) == Effect(old(WorldOf(p)), c)
  {
    match c {
      case CreateCall(at, n, failure) => var _ := p.Create(at, n, failure);
      case FreeCall(ptr) => p.Free(ptr);
      case SetVerifierCall(b, v) => p.SetClientVerifier(b, v);
      case SetHelloCall(b, has, at) => var _ := p.SetHelloCallback(b, has, at);
      case SetKeysCall(side, b, keys, at) =>
        if side == Server {
          var _ := p.SetCertifiedKeys(b, keys, at);
        } else {
          var _ := p.SetCertifiedKey(b, keys, at);
        }
      case BuildCall(_, b, at) => var _ := p.Build(b, at);
      case ConnectCall(cfg, outcome, at) => var _ := p.ConnectionNew(cfg, outcome, at);
    }
  }

  /** Any run that uses each handle only until it frees it keeps every count exact, behaves
      like the collector, and leaves nothing allocated once C holds nothing. */
  method Run(p: Process, calls: seq<Call>)
    requires p.Valid() && LegalRun(WorldOf(p), calls)
    modifies p
    ensures p.Valid() && WorldOf(p) == RunEffect(old(WorldOf(p)), calls)
    ensures p.Objects() == Collect(p.Objects(), Roots(p.handles))
    ensures p.handles == {} ==> p.heap == map[]
  {
    var i := 0;
    while i < |calls|
      invariant 0 <= i <= |calls| && p.Valid()
      invariant LegalRun(WorldOf(p), calls[i..])
      invariant RunEffect(WorldOf(p), calls[i..]) == RunEffect(old(WorldOf(p)), calls)
    {
      assert calls[i..][0] == calls[i] && calls[i..][1..] == calls[i + 1..];
      Invoke(p, calls[i]);
      i := i + 1;
    }
    CountedIsCollected(p.Objects(), p.heap, Roots(p.handles));
    if p.handles == {} {
      assert Roots(p.handles) == multiset{};
      NoOwnersNoHeap(p.heap);
    }
  }

  // ---- Freeing in any order ----

  lemma CollectTwice(g: Graph, roots: multiset<Ptr>, fewer: multiset<Ptr>)
    requires forall p :: p in fewer ==> p in roots
    ensures Collect(Collect(g, roots), fewer) == Collect(g, fewer)
  {
    var k := Collect(g, roots);
    forall p, path ensures Path(g, fewer, path, p) <==> Path(k, fewer, path, p) {
      if Path(g, fewer, path, p) {
        forall i | 0 <= i < |path| ensures path[i] in k {
          assert Path(g, roots, path[..i + 1], path[i]);
        }
      }
    }
    forall p ensures Reachable(g, fewer, p) <==> Reachable(k, fewer, p) {}
    forall p | Reachable(g, fewer, p) && p in g ensures p in k {
      var path :| Path(g, fewer, path, p);
      assert Path(k, fewer, path, p);
    }
  }

  lemma FreeSettled(g: Graph, handles: set<Ptr>, p: Ptr)
    requires p in handles && p in g
    ensures Legal(Settled(g, handles), FreeCall(Some(p)))
    ensures Effect(Settled(g, handles), FreeCall(Some(p))) == Settled(g, handles - {p})
  {
    assert Path(g, Roots(handles), [p], p);
    CollectTwice(g, Roots(handles), Roots(handles - {p}));
  }

  lemma RunFirst(w: World, c: Call, later: seq<Call>)
    requires Legal(w, c) && LegalRun(Effect(w, c), later)
    ensures LegalRun(w, [c] + later) && RunEffect(w, [c] + later) == RunEffect(Effect(w, c), later)
  {
  }

  function Elements(ptrs: seq<Ptr>): set<Ptr> {
    set p | p in ptrs
  }

  lemma ElementsFirst(handles: set<Ptr>, ptrs: seq<Ptr>)
    requires ptrs != []
    ensures handles - {ptrs[0]} - Elements(ptrs[1..]) == handles - Elements(ptrs)
  {
  }

  function Frees(ptrs: seq<Ptr>): seq<Call> {
    if ptrs == [] then [] else [FreeCall(Some(ptrs[0]))] + Frees(ptrs[1..])
  }

  /** Freeing distinct handles ends in the same world in every order: what the remaining
      handles reach. (With all handles freed, nothing.) */
  lemma {:induction false} FreesInAnyOrder(g: Graph, handles: set<Ptr>, ptrs: seq<Ptr>)
    requires forall p :: p in handles ==> p in g
    requires forall i :: 0 <= i < |ptrs| ==> ptrs[i] in handles
    requires forall i, j :: 0 <= i < j < |ptrs| ==> ptrs[i] != ptrs[j]
    ensures LegalRun(Settled(g, handles), Frees(ptrs))
    ensures RunEffect(Settled(g, handles), Frees(ptrs)) == Settled(g, handles - Elements(ptrs))
    decreases ptrs
  {
    if ptrs == [] {
      assert handles - Elements(ptrs) == handles;
    } else {
      FreeSettled(g, handles, ptrs[0]);
      FreesInAnyOrder(g, handles - {ptrs[0]}, ptrs[1..]);
      RunFirst(Settled(g, handles), FreeCall(Some(ptrs[0])), Frees(ptrs[1..]));
      ElementsFirst(handles, ptrs);
    }
  }

  // ---- The documented life of a key ----

  /** A key may be freed once a config holds it: the config keeps it alive. When nothing else
      reaches the key, freeing the config then releases it. */
  lemma KeyOutlivesHandle(w: World, key: Ptr, cfg: Ptr, resolver: Ptr)
    requires {key, cfg} <= w.handles && {key, cfg, resolver} <= w.objects.Keys && key != cfg
    requires w.objects[cfg].Config? && w.objects[cfg].certResolver == Some(resolver)
    requires w.objects[resolver].KeyResolver? && key in w.objects[resolver].keys
    ensures var freed := Effect(w, FreeCall(Some(key)));
      && key in freed.objects && freed.objects[key] == w.objects[key]
      && Legal(freed, FreeCall(Some(cfg)))
      && (key in Effect(freed, FreeCall(Some(cfg))).objects
          <==> exists h :: h in w.handles - {key, cfg} && Reachable(w.objects, multiset{h}, key))
  {
    var g, others := w.objects, w.handles - {key, cfg};
    var roots := Roots(w.handles - {key});
    assert Path(g, roots, [cfg], cfg);
    assert Path(g, roots, [cfg, resolver, key], key);
    assert w.handles - {key} - {cfg} == others;
    CollectTwice(g, roots, Roots(others));
    OneRootSuffices(g, others, key);
  }

  lemma OneRootSuffices(g: Graph, handles: set<Ptr>, p: Ptr)
    ensures Reachable(g, Roots(handles), p) <==> exists h :: h in handles && Reachable(g, multiset{h}, p)
  {
    if Reachable(g, Roots(handles), p) {
      var path :| Path(g, Roots(handles), path, p);
      assert Path(g, multiset{path[0]}, path, p);
    }
    if h :| h in handles && Reachable(g, multiset{h}, p) {
      var path :| Path(g, multiset{h}, path, p);
      assert Path(g, Roots(handles), path, p);
    }
  }

  // ---- The life of a builder ----

  /** The call neither frees nor builds `b`. */
  predicate Leaves(c: Call, b: Ptr) {
    && !(c.FreeCall? && c.ptr == Some(b))
    && !(c.BuildCall? && c.builder == Some(b))
  }

  /** The call gives `b` keys without a NULL among them, or a hello callback. */
  predicate Installs(c: Call, b: Ptr) {
    || (c.SetHelloCall? && c.builder == Some(b) && c.hasCallback)
    || (c.SetKeysCall? && c.builder == Some(b) && c.keys.Some? && NoNull(c.keys.value))
  }

  /** The call gives `b` a client verifier. */
  predicate SetsVerifier(c: Call, b: Ptr) {
    c.SetVerifierCall? && c.builder == Some(b) && c.verifier.Some?
  }

  ghost predicate HasBuilder(w: World, b: Ptr) {
    b in w.handles && b in w.objects && w.objects[b].Builder?
  }

  lemma BuilderStep(w: World, c: Call, b: Ptr)
    requires Legal(w, c) && HasBuilder(w, b) && Leaves(c, b)
    ensures var was, after := w.objects[b], Effect(w, c);
      && HasBuilder(after, b) && after.objects[b].side == was.side
      && (after.objects[b].resolver.Some? <==> was.resolver.Some? || Installs(c, b))
      && after.objects[b].verifier == if SetsVerifier(c, b) then c.verifier else was.verifier
  {
    var g, hs := w.objects, w.handles;
    match c {
      case CreateCall(_, _, _) =>
      case ConnectCall(_, _, _) =>
      case FreeCall(p) => HandleKept(g, Effect(w, c).handles, b);
      case SetVerifierCall(to, v) =>
        if to.Some? && v.Some? {
          HandleKept(g[to.value := g[to.value].(verifier := v)], hs, b);
        }
      case SetHelloCall(to, has, at) =>
        if to.Some? && has {
          HandleKept(g[at := HelloResolver][to.value := g[to.value].(resolver := Some(at))], hs, b);
        }
      case SetKeysCall(_, to, keys, at) =>
        if keys.Some? {
          NoNullIff(keys.value);
        }
        if KeysCode(to, keys) == ResultCodes.OK {
          var n := KeyResolver(Values(keys.value));
          HandleKept(g[at := n][to.value := g[to.value].(resolver := Some(at))], hs, b);
        }
      case BuildCall(_, to, at) =>
        if to.Some? && !Buildable(g[to.value]) {
          HandleKept(g, hs - {to.value}, b);
        }
    }
  }

  /** Through any calls that neither free nor build it, a builder has a resolver iff it had one
      or some call installed one, and its client verifier is the last one set. */
  lemma {:induction false} BuilderRun(w: World, calls: seq<Call>, b: Ptr)
    requires LegalRun(w, calls) && HasBuilder(w, b)
    requires forall i :: 0 <= i < |calls| ==> Leaves(calls[i], b)
    ensures var was, after := w.objects[b], RunEffect(w, calls);
      && HasBuilder(after, b) && after.objects[b].side == was.side
      && (after.objects[b].resolver.Some?
          <==> was.resolver.Some? || exists i :: 0 <= i < |calls| && Installs(calls[i], b))
      && LastVerifier(calls, b, was.verifier, after.objects[b].verifier)
    decreases calls
  {
    if calls == [] {
    } else {
      BuilderStep(w, calls[0], b);
      BuilderRun(Effect(w, calls[0]), calls[1..], b);
      var rest := calls[1..];
      if i :| 0 <= i < |rest| && Installs(rest[i], b) {
        assert Installs(calls[i + 1], b);
      }
      if i :| 0 <= i < |calls| && Installs(calls[i], b) {
        assert i == 0 || Installs(rest[i - 1], b);
      }
      LastVerifierFirst(calls, b, w.objects[b].verifier, RunEffect(w, calls).objects[b].verifier);
    }
  }

  /** `v` is what the last call that sets a verifier gave, and `initial` when there is none. */
  ghost predicate LastVerifier(calls: seq<Call>, b: Ptr, initial: Option<Ptr>, v: Option<Ptr>) {
    || (v == initial && forall i :: 0 <= i < |calls| ==> !SetsVerifier(calls[i], b))
    || exists i :: VerifierFrom(calls, b, v, i)
  }

  ghost predicate VerifierFrom(calls: seq<Call>, b: Ptr, v: Option<Ptr>, i: int) {
    && 0 <= i < |calls| && SetsVerifier(calls[i], b) && calls[i].verifier == v
    && forall j :: i < j < |calls| ==> !SetsVerifier(calls[j], b)
  }

  lemma LastVerifierFirst(calls: seq<Call>, b: Ptr, initial: Option<Ptr>, v: Option<Ptr>)
    requires calls != []
    requires LastVerifier(calls[1..], b, if SetsVerifier(calls[0], b) then calls[0].verifier else initial, v)
    ensures LastVerifier(calls, b, initial, v)
  {
    var rest := calls[1..];
    assert forall i :: 0 < i < |calls| ==> calls[i] == rest[i - 1];
    if i :| VerifierFrom(rest, b, v, i) {
      assert VerifierFrom(calls, b, v, i + 1);
    } else if SetsVerifier(calls[0], b) {
      assert VerifierFrom(calls, b, v, 0);
    }
  }

  /** A builder without settings, after any such calls: building consumes it, and gives a config of
      its own side iff it is a client's or some call installed a resolver. */
  lemma BuildAfterRun(w: World, calls: seq<Call>, b: Ptr, side: Side, at: Ptr)
    requires LegalRun(w, calls) && HasBuilder(w, b) && w.objects[b] == Builder(side, None, None)
    requires forall i :: 0 <= i < |calls| ==> Leaves(calls[i], b)
    requires at !in RunEffect(w, calls).objects
    ensures var before := RunEffect(w, calls);
      && Legal(before, BuildCall(side, Some(b), at))
      && var built := Effect(before, BuildCall(side, Some(b), at));
      var installed := exists i :: 0 <= i < |calls| && Installs(calls[i], b);
      && b !in built.handles
      && (at in built.objects <==> side == Client || installed)
      && (at in built.objects ==>
            && at in built.handles && built.objects[at].Config? && built.objects[at].end == side
            && (built.objects[at].certResolver.Some? <==> installed)
            && LastVerifier(calls, b, None, built.objects[at].clientAuth))
  {
    BuilderRun(w, calls, b);
  }

  // ---- What a connection keeps alive ----

  ghost predicate IsConnection(g: Graph, conn: Ptr) {
    && Typed(g) && conn in g && g[conn].Connection?
    && g[conn].config in g && g[g[conn].config].Config?
  }

  /** The keys in the resolver of a config. */
  ghost function ConfigKeys(g: Graph, resolver: Option<Ptr>): set<Ptr> {
    match resolver
    case Some(r) => if r in g && g[r].KeyResolver? then Elements(g[r].keys) else {}
    case None => {}
  }

  /** A connection, its config, the config's verifier and resolver, and the resolver's keys. */
  ghost function Kept(g: Graph, conn: Ptr): set<Ptr>
    requires IsConnection(g, conn)
  {
    var config := g[g[conn].config];
    {conn, g[conn].config} + Elements(Listed(config.clientAuth)) + Elements(Listed(config.certResolver))
    + ConfigKeys(g, config.certResolver)
  }

  /** When C holds a connection only, exactly these are alive. */
  lemma ConnectionKeeps(g: Graph, conn: Ptr)
    requires IsConnection(g, conn)
    ensures Settled(g, {conn}).objects.Keys == Kept(g, conn)
  {
    KeptThere(g, conn);
    forall p | p in g ensures Reachable(g, Roots({conn}), p) <==> p in Kept(g, conn) {
      if p in Kept(g, conn) {
        KeptReached(g, conn, p);
      } else if Reachable(g, Roots({conn}), p) {
        ReachedKept(g, conn, p);
      }
    }
  }

  lemma ReachedKept(g: Graph, conn: Ptr, p: Ptr)
    requires IsConnection(g, conn) && Reachable(g, Roots({conn}), p)
    ensures p in Kept(g, conn)
  {
    KeptThere(g, conn);
    var kept: Graph := map q | q in Kept(g, conn) :: g[q];
    KeptClosed(g, conn, kept);
    var path :| Path(g, Roots({conn}), path, p);
    PathStays(g, kept, Roots({conn}), path, p);
  }

  lemma KeptThere(g: Graph, conn: Ptr)
    requires IsConnection(g, conn)
    ensures Kept(g, conn) <= g.Keys
  {
    var config := g[g[conn].config];
    assert TypedNode(g, config);
    if config.certResolver.Some? {
      assert TypedNode(g, g[config.certResolver.value]);
    }
  }

  lemma KeptClosed(g: Graph, conn: Ptr, kept: Graph)
    requires IsConnection(g, conn)
    requires kept.Keys == Kept(g, conn) && forall p :: p in kept ==> p in g && kept[p] == g[p]
    ensures forall q, r :: q in kept && r in kept[q].Refs() ==> r in kept
  {
    assert TypedNode(g, g[g[conn].config]);
    forall q, r | q in kept && r in kept[q].Refs() ensures r in kept {
      assert TypedNode(g, g[q]);
    }
  }

  lemma OneMore(g: Graph, roots: multiset<Ptr>, q: Ptr, p: Ptr)
    requires q in g && p in g && Reachable(g, roots, q) && p in g[q].Refs()
    ensures Reachable(g, roots, p)
  {
    var path :| Path(g, roots, path, q);
    assert Path(g, roots, path + [p], p);
  }

  lemma KeptReached(g: Graph, conn: Ptr, p: Ptr)
    requires IsConnection(g, conn) && p in Kept(g, conn)
    ensures Reachable(g, Roots({conn}), p)
  {
    var roots, at := Roots({conn}), g[conn].config;
    KeptThere(g, conn);
    assert Path(g, roots, [conn], conn);
    OneMore(g, roots, conn, at);
    if p in g[at].Refs() {
      OneMore(g, roots, at, p);
    } else if p in ConfigKeys(g, g[at].certResolver) {
      OneMore(g, roots, at, g[at].certResolver.value);
      OneMore(g, roots, g[at].certResolver.value, p);
    }
  }

  /** C frees every handle but a connection's, in any order: exactly what that one keeps is left. */
  lemma LastConnection(g: Graph, handles: set<Ptr>, ptrs: seq<Ptr>, conn: Ptr)
    requires IsConnection(g, conn) && forall p :: p in handles ==> p in g
    requires forall i :: 0 <= i < |ptrs| ==> ptrs[i] in handles
    requires forall i, j :: 0 <= i < j < |ptrs| ==> ptrs[i] != ptrs[j]
    requires handles - Elements(ptrs) == {conn}
    ensures LegalRun(Settled(g, handles), Frees(ptrs))
    ensures RunEffect(Settled(g, handles), Frees(ptrs)).objects.Keys == Kept(g, conn)
  {
    FreesInAnyOrder(g, handles, ptrs);
    ConnectionKeeps(g, conn);
  }
}
