/**
 The session store broker: rustls asks for TLS sessions, C callbacks keep them.

 The callbacks are arbitrary functions on an external store of any type; the documented
 contract is a predicate on them. Which store they see is decided by the userdata
 on top of the thread's stack.
 */
module SessionStore {
  import opened Base
  import opened UserdataStack
  import ResultCodes

  type Byte = b: nat | b < 256
  type Bytes = seq<Byte>
  type Sessions = map<Bytes, Bytes>

  /** The size of the buffer offered to the get callback. */
  const BUFFER_SIZE: nat := 65 * 1024

  datatype GetReply<S> = GetReply(store: S, code: ResultCodes.U32, buf: Bytes, outN: nat)
  datatype PutReply<S> = PutReply(store: S, code: ResultCodes.U32)

  type GetCallback<!S> = (S, Pointer, Bytes, bool, nat) -> GetReply<S>
  type PutCallback<!S> = (S, Pointer, Bytes, Bytes) -> PutReply<S>
  /** The sessions that the store keeps for a userdata pointer. */
  type View<!S> = (S, Pointer) -> Sessions

  ghost predicate OthersKept<S>(view: View<S>, before: S, after: S, u: Pointer) {
    forall w :: w != u ==> view(after, w) == view(before, w)
  }

  /** The documented behaviour of one get call: the value goes into the buffer in its entirety
      or, when it does not fit, is removed and reported as never found. */
  ghost predicate GetHonest<S>(get: GetCallback<S>, view: View<S>, s: S, u: Pointer, key: Bytes, remove: bool,
                               count: nat)
  {
    var r, had := get(s, u, key, remove, count), view(s, u);
    && |r.buf| == count
    && OthersKept(view, s, r.store, u)
    && if key in had && |had[key]| <= count then
         && r.code == ResultCodes.OK && r.outN == |had[key]| && r.buf[..r.outN] == had[key]
         && view(r.store, u) == if remove then had - {key} else had
       else
         r.code != ResultCodes.OK && view(r.store, u) == had - {key}
  }

  /** A put call that succeeds stores the value. One that fails may leave anything under that key
      (the old value, the new one, neither), but touches nothing else. */
  ghost predicate PutHonest<S>(put: PutCallback<S>, view: View<S>, s: S, u: Pointer, key: Bytes, value: Bytes) {
    var r, had := put(s, u, key, value), view(s, u);
    && OthersKept(view, s, r.store, u)
    && view(r.store, u) - {key} == had - {key}
    && (r.code == ResultCodes.OK ==> view(r.store, u) == had[key := value])
  }

  ghost predicate Contract<S(!new)>(get: GetCallback<S>, put: PutCallback<S>, view: View<S>) {
    && (forall s, u, key, remove, count: nat :: GetHonest(get, view, s, u, key, remove, count))
    && (forall s, u, key, value :: PutHonest(put, view, s, u, key, value))
  }

  // ---- The abstract store: one map per userdata pointer ----

  type Family = map<Pointer, Sessions>

  function At(f: Family, u: Pointer): Sessions {
    if u in f then f[u] else map[]
  }

  datatype Op = Put(key: Bytes, value: Bytes) | Get(key: Bytes) | Take(key: Bytes)
  datatype Reply = Stored(ok: bool) | Found(value: Option<Bytes>)
  datatype Event = Event(user: Option<Pointer>, op: Op, reply: Reply)

  /** The answer of a map to a lookup, where values that do not fit count as absent. */
  function Fitting(m: Sessions, key: Bytes): Option<Bytes> {
    if key in m && |m[key]| <= BUFFER_SIZE then Some(m[key]) else None
  }

  /** The maps of one userdata pointer before and after an operation under it, and its reply. */
  predicate MapStep(m: Sessions, op: Op, reply: Reply, m': Sessions) {
    match op
    case Put(k, v) =>
      (reply == Stored(true) && m' == m[k := v]) || (reply == Stored(false) && m' - {k} == m - {k})
    case Get(k) =>
      reply == Found(Fitting(m, k)) && m' == if Fitting(m, k).Some? then m else m - {k}
    case Take(k) =>
      reply == Found(Fitting(m, k)) && m' == m - {k}
  }

  /** A family of maps can answer an event and become `f'`. */
  ghost predicate Next(f: Family, e: Event, f': Family) {
    match e.user
    case None => f' == f && e.reply == if e.op.Put? then Stored(false) else Found(None)
    case Some(u) =>
      && MapStep(At(f, u), e.op, e.reply, At(f', u))
      && forall w :: w != u ==> At(f', w) == At(f, w)
  }

  /** A family of maps can give all the replies of the log, one after the other. */
  ghost predicate Replay(f: Family, log: seq<Event>, f': Family)
    decreases log
  {
    if log == [] then f == f'
    else exists mid :: Next(f, log[0], mid) && Replay(mid, log[1..], f')
  }

  ghost predicate Agrees<S>(view: View<S>, s: S, f: Family) {
    forall u :: view(s, u) == At(f, u)
  }

  // ---- The broker ----

  class External<S> {
    var store: S

    constructor (store: S)
      ensures this.store == store
    {
      this.store := store;
    }
  }

  function UserOf(alive: bool, stack: seq<Userdata>): Option<Pointer> {
    if !alive || stack == [] then None else Some(stack[|stack| - 1].userdata)
  }

  /** A store after one request, and the reply. */
  datatype Turn<S> = Turn(store: S, reply: Reply)

  /** What a request amounts to for any callbacks. Without userdata none is called; otherwise one
      is, once, under that userdata, and its code alone decides the reply. */
  function Ask<S>(get: GetCallback<S>, put: PutCallback<S>, s: S, user: Option<Pointer>, op: Op): Turn<S> {
    match user
    case None => Turn(s, if op.Put? then Stored(false) else Found(None))
    case Some(u) =>
      match op
      case Put(k, v) => var r := put(s, u, k, v); Turn(r.store, Stored(r.code == ResultCodes.OK))
      case Get(k) => var r := get(s, u, k, false, BUFFER_SIZE); Turn(r.store, Found(Received(r)))
      case Take(k) => var r := get(s, u, k, true, BUFFER_SIZE); Turn(r.store, Found(Received(r)))
  }

  function Received<S>(r: GetReply<S>): Option<Bytes> {
    if r.code == ResultCodes.OK && r.outN <= |r.buf| then Some(r.buf[..r.outN]) else None
  }

  /** A get callback reports no more than the buffer it was offered can hold. */
  ghost predicate StaysInBuffer<S(!new)>(get: GetCallback<S>) {
    forall s, u, key, remove, count: nat ::
      var r := get(s, u, key, remove, count); r.code == ResultCodes.OK ==> r.outN <= |r.buf| == count
  }

  class Broker<S(!new)> {
    const getCb: GetCallback<S>
    const putCb: PutCallback<S>

    constructor (getCb: GetCallback<S>, putCb: PutCallback<S>)
      ensures this.getCb == getCb && this.putCb == putCb
    {
      this.getCb, this.putCb := getCb, putCb;
    }

    method Retrieve(t: ThreadLocal, ext: External<S>, key: Bytes, remove: bool) returns (r: Option<Bytes>)
      requires StaysInBuffer(getCb) && !t.borrowed
      modifies t`borrowed, ext
      ensures !t.borrowed
      ensures Turn(ext.store, Found(r))
           == Ask(getCb, putCb, old(ext.store), UserOf(t.alive, t.stack), if remove then Take(key) else Get(key))
      ensures !t.alive || t.stack == [] ==> r == None && ext.store == old(ext.store)
      ensures t.alive && t.stack != [] ==>
        var reply := getCb(old(ext.store), t.stack[|t.stack| - 1].userdata, key, remove, 66560);
        ext.store == reply.store && r == if reply.code == 7000 then Some(reply.buf[..reply.outN]) else None
    {
      var top := t.Last();
      if top.Err? {
        return None;
      }
      var reply := getCb(ext.store, top.value.userdata, key, remove, BUFFER_SIZE);
      ext.store := reply.store;
      if ResultCodes.Decode(reply.code, ResultCodes.GENERAL) == ResultCodes.OK {
        // set_len(out_n)
        r := Some(reply.buf[..reply.outN]);
      } else {
        r := None;
      }
    }

    method Store(t: ThreadLocal, ext: External<S>, key: Bytes, value: Bytes) returns (ok: bool)
      requires !t.borrowed
      modifies t`borrowed, ext
      ensures !t.borrowed
      ensures Turn(ext.store, Stored(ok))
           == Ask(getCb, putCb, old(ext.store), UserOf(t.alive, t.stack), Put(key, value))
      ensures !t.alive || t.stack == [] ==> !ok && ext.store == old(ext.store)
      ensures t.alive && t.stack != [] ==>
        var reply := putCb(old(ext.store), t.stack[|t.stack| - 1].userdata, key, value);
        ext.store == reply.store && (ok <==> reply.code == 7000)
    {
      var top := t.Last();
      if top.Err? {
        return false;
      }
      var reply := putCb(ext.store, top.value.userdata, key, value);
      ext.store := reply.store;
      ok := reply.code == ResultCodes.OK;
    }
  }

  // ---- Runs, with nested calls under other userdata ----

  /** What happens to the store while packets are processed: single operations, and nested
      calls to `process_new_packets` for a connection with its own userdata. */
  datatype Activity = Do(op: Op) | Nested(frame: Userdata, body: seq<Activity>)

  /** The operations in order, each with the userdata it runs under. */
  function Flatten(alive: bool, user: Option<Pointer>, acts: seq<Activity>): seq<(Option<Pointer>, Op)>
    decreases acts
  {
    if acts == [] then []
    else FlattenOne(alive, user, acts[0]) + Flatten(alive, user, acts[1..])
  }

  function FlattenOne(alive: bool, user: Option<Pointer>, act: Activity): seq<(Option<Pointer>, Op)>
    decreases act
  {
    match act
    case Do(op) => [(user, op)]
    case Nested(frame, body) => if alive then Flatten(alive, Some(frame.userdata), body) else []
  }

  /** The userdata of all frames in the activities. */
  function FramesOf(acts: seq<Activity>): set<Pointer>
    decreases acts
  {
    if acts == [] then {} else FramesIn(acts[0]) + FramesOf(acts[1..])
  }

  function FramesIn(act: Activity): set<Pointer>
    decreases act
  {
    match act
    case Do(_) => {}
    case Nested(frame, body) => {frame.userdata} + FramesOf(body)
  }

  predicate HasDo(acts: seq<Activity>) {
    exists i :: 0 <= i < |acts| && acts[i].Do?
  }

  /** Nested operations run under the userdata of a frame, the others under that of the caller. */
  lemma {:induction false} FlattenUsers(alive: bool, user: Option<Pointer>, acts: seq<Activity>, k: nat)
    requires k < |Flatten(alive, user, acts)|
    ensures var who := Flatten(alive, user, acts)[k].0;
      (who == user && HasDo(acts)) || (who.Some? && who.value in FramesOf(acts))
    decreases acts, 0
  {
    var first := FlattenOne(alive, user, acts[0]);
    if k < |first| {
      match acts[0] {
        case Do(_) =>
        case Nested(frame, body) =>
          FlattenUsers(alive, Some(frame.userdata), body, k);
      }
    } else {
      var rest := acts[1..];
      FlattenUsers(alive, user, rest, k - |first|);
      if HasDo(rest) {
        var i :| 0 <= i < |rest| && rest[i].Do?;
        assert acts[i + 1].Do?;
      }
    }
  }

  predicate AllDo(acts: seq<Activity>) {
    forall i :: 0 <= i < |acts| ==> acts[i].Do?
  }

  /** Plain operations run in order under the caller's userdata. */
  lemma {:induction false} FlattenDo(user: Option<Pointer>, acts: seq<Activity>)
    requires AllDo(acts)
    ensures |Flatten(true, user, acts)| == |acts|
    ensures forall i :: 0 <= i < |acts| ==> Flatten(true, user, acts)[i] == (user, acts[i].op)
    decreases acts
  {
    if acts == [] {
    } else {
      FlattenDo(user, acts[1..]);
    }
  }

  /** Those of a nested call run under the userdata of that call. */
  lemma FlattenNested(user: Option<Pointer>, frame: Userdata, body: seq<Activity>)
    requires AllDo(body)
    ensures |FlattenOne(true, user, Nested(frame, body))| == |body|
    ensures forall i :: 0 <= i < |body| ==>
      FlattenOne(true, user, Nested(frame, body))[i] == (Some(frame.userdata), body[i].op)
  {
    FlattenDo(Some(frame.userdata), body);
  }

  function Requests(log: seq<Event>): seq<(Option<Pointer>, Op)> {
    if log == [] then [] else [(log[0].user, log[0].op)] + Requests(log[1..])
  }

  lemma {:induction false} RequestAt(log: seq<Event>, i: nat)
    requires i < |log|
    ensures |Requests(log)| == |log| && Requests(log)[i] == (log[i].user, log[i].op)
  {
    if |log| == 1 {
    } else {
      RequestAt(log[1..], if i == 0 then 0 else i - 1);
    }
  }

  /** A store after a sequence of requests, and the log of all replies. */
  datatype Served<S> = Served(store: S, log: seq<Event>)

  function Serve<S>(get: GetCallback<S>, put: PutCallback<S>, s: S, asked: seq<(Option<Pointer>, Op)>): Served<S>
    decreases asked
  {
    if asked == [] then Served(s, [])
    else
      var turn := Ask(get, put, s, asked[0].0, asked[0].1);
      var rest := Serve(get, put, turn.store, asked[1..]);
      Served(rest.store, [Event(asked[0].0, asked[0].1, turn.reply)] + rest.log)
  }

  lemma {:induction false} ServeAppend<S>(get: GetCallback<S>, put: PutCallback<S>, s: S,
                                          a: seq<(Option<Pointer>, Op)>, b: seq<(Option<Pointer>, Op)>)
    ensures var first := Serve(get, put, s, a);
      var rest := Serve(get, put, first.store, b);
      Serve(get, put, s, a + b) == Served(rest.store, first.log + rest.log)
    decreases a
  {
    if a == [] {
      assert a + b == b;
    } else {
      var turn := Ask(get, put, s, a[0].0, a[0].1);
      assert (a + b)[1..] == a[1..] + b;
      ServeAppend(get, put, turn.store, a[1..], b);
      var more, rest := Serve(get, put, turn.store, a[1..]), Serve(get, put, Serve(get, put, s, a).store, b);
      LogFirst(Event(a[0].0, a[0].1, turn.reply), more.log, rest.log);
    }
  }

  lemma LogFirst(e: Event, a: seq<Event>, b: seq<Event>)
    ensures [e] + (a + b) == ([e] + a) + b
  {
  }

  // ---- Callbacks that keep the contract ----

  lemma HonestStaysInBuffer<S(!new)>(get: GetCallback<S>, put: PutCallback<S>, view: View<S>)
    requires Contract(get, put, view)
    ensures StaysInBuffer(get)
  {
    forall s, u, key, remove, count: nat
      ensures var r := get(s, u, key, remove, count); r.code == ResultCodes.OK ==> r.outN <= |r.buf| == count
    {
      assert GetHonest(get, view, s, u, key, remove, count);
    }
  }

  /** One request agrees with the map of its userdata. */
  lemma AskExplained<S(!new)>(get: GetCallback<S>, put: PutCallback<S>, view: View<S>, s: S, f: Family,
                              user: Option<Pointer>, op: Op)
    returns (f': Family)
    requires Contract(get, put, view) && Agrees(view, s, f)
    ensures var turn := Ask(get, put, s, user, op);
      Next(f, Event(user, op, turn.reply), f') && Agrees(view, turn.store, f')
  {
    f' := f;
    if user.Some? {
      var u := user.value;
      assert view(s, u) == At(f, u);
      f' := f[u := view(Ask(get, put, s, user, op).store, u)];
      match op {
        case Put(k, v) => assert PutHonest(put, view, s, u, k, v);
        case Get(k) => assert GetHonest(get, view, s, u, k, false, BUFFER_SIZE);
        case Take(k) => assert GetHonest(get, view, s, u, k, true, BUFFER_SIZE);
      }
    }
  }

  /** The log `l` is explained by a family of maps that began as `f` and now agrees with the
      store as `f'`, and its requests are those asked for. */
  ghost predicate Explained<S>(view: View<S>, s: S, f: Family, f': Family, l: seq<Event>,
                               asked: seq<(Option<Pointer>, Op)>)
  {
    Requests(l) == asked && Replay(f, l, f') && Agrees(view, s, f')
  }

  /** Any sequence of requests agrees with a family of maps indexed by the userdata. */
  lemma {:induction false} ServeExplained<S(!new)>(get: GetCallback<S>, put: PutCallback<S>, view: View<S>, s: S,
                                                   f: Family, asked: seq<(Option<Pointer>, Op)>)
    returns (f': Family)
    requires Contract(get, put, view) && Agrees(view, s, f)
    ensures var served := Serve(get, put, s, asked);
      Explained(view, served.store, f, f', served.log, asked)
    decreases asked
  {
    if asked == [] {
      f' := f;
    } else {
      var turn := Ask(get, put, s, asked[0].0, asked[0].1);
      var mid := AskExplained(get, put, view, s, f, asked[0].0, asked[0].1);
      f' := ServeExplained(get, put, view, turn.store, mid, asked[1..]);
      var log := Serve(get, put, s, asked).log;
      assert log[1..] == Serve(get, put, turn.store, asked[1..]).log;
    }
  }

  /** Every put of the log that has a userdata is answered with success. */
  predicate PutsStored(log: seq<Event>) {
    forall i :: 0 <= i < |log| && log[i].op.Put? && log[i].user.Some? ==> log[i].reply == Stored(true)
  }

  ghost predicate AlwaysStores<S(!new)>(put: PutCallback<S>) {
    forall s, u, key, value :: put(s, u, key, value).code == ResultCodes.OK
  }

  /** A put callback that always succeeds makes every put succeed. */
  lemma {:induction false} NoPutRefused<S(!new)>(get: GetCallback<S>, put: PutCallback<S>, s: S,
                                                 asked: seq<(Option<Pointer>, Op)>)
    requires AlwaysStores(put)
    ensures PutsStored(Serve(get, put, s, asked).log)
    decreases asked
  {
    if asked == [] {
    } else {
      NoPutRefused(get, put, Ask(get, put, s, asked[0].0, asked[0].1).store, asked[1..]);
    }
  }

  // ---- Running the broker ----

  method Perform<S(!new)>(b: Broker<S>, t: ThreadLocal, ext: External<S>, op: Op) returns (e: Event)
    requires StaysInBuffer(b.getCb) && !t.borrowed
    modifies t`borrowed, ext
    ensures !t.borrowed && e.user == UserOf(t.alive, t.stack) && e.op == op
    ensures Turn(ext.store, e.reply) == Ask(b.getCb, b.putCb, old(ext.store), e.user, op)
  {
    var who := UserOf(t.alive, t.stack);
    match op {
      case Put(k, v) =>
        var ok := b.Store(t, ext, k, v);
        e := Event(who, op, Stored(ok));
      case Get(k) =>
        var r := b.Retrieve(t, ext, k, false);
        e := Event(who, op, Found(r));
      case Take(k) =>
        var r := b.Retrieve(t, ext, k, true);
        e := Event(who, op, Found(r));
    }
  }

  /** Any callbacks: the broker passes every operation on, in order, under the innermost userdata. */
  method RunAll<S(!new)>(b: Broker<S>, t: ThreadLocal, ext: External<S>, acts: seq<Activity>)
    returns (log: seq<Event>)
    requires StaysInBuffer(b.getCb) && !t.borrowed
    modifies t, ext
    ensures !t.borrowed && t.stack == old(t.stack)
    ensures Served(ext.store, log)
         == Serve(b.getCb, b.putCb, old(ext.store), Flatten(t.alive, UserOf(t.alive, t.stack), acts))
    decreases acts, 0
  {
    if acts == [] {
      return [];
    }
    var first := RunOne(b, t, ext, acts[0]);
    var rest := RunAll(b, t, ext, acts[1..]);
    var who := UserOf(t.alive, t.stack);
    ServeAppend(b.getCb, b.putCb, old(ext.store), FlattenOne(t.alive, who, acts[0]), Flatten(t.alive, who, acts[1..]));
    log := first + rest;
  }

  method RunOne<S(!new)>(b: Broker<S>, t: ThreadLocal, ext: External<S>, act: Activity) returns (log: seq<Event>)
    requires StaysInBuffer(b.getCb) && !t.borrowed
    modifies t, ext
    ensures !t.borrowed && t.stack == old(t.stack)
    ensures Served(ext.store, log)
         == Serve(b.getCb, b.putCb, old(ext.store), FlattenOne(t.alive, UserOf(t.alive, t.stack), act))
    decreases act, 1
  {
    match act {
      case Do(op) =>
        var e := Perform(b, t, ext, op);
        log := [e];
      case Nested(frame, body) =>
        var pushed := t.Push(frame.userdata, frame.logCallback);
        if pushed.Err? {
          return [];
        }
        log := RunAll(b, t, ext, body);
        var _ := pushed.value.TryDrop(t);
    }
  }

  /** Every run of the broker agrees with a family of maps indexed by the current userdata. */
  method RunBroker<S(!new)>(b: Broker<S>, t: ThreadLocal, ext: External<S>, acts: seq<Activity>,
                            ghost view: View<S>, ghost f: Family)
    returns (log: seq<Event>, ghost f': Family)
    requires Contract(b.getCb, b.putCb, view) && Agrees(view, ext.store, f)
    requires !t.borrowed
    modifies t, ext
    ensures !t.borrowed && t.stack == old(t.stack)
    ensures Explained(view, ext.store, f, f', log, Flatten(t.alive, UserOf(t.alive, t.stack), acts))
    ensures Served(ext.store, log)
         == Serve(b.getCb, b.putCb, old(ext.store), Flatten(t.alive, UserOf(t.alive, t.stack), acts))
    ensures AlwaysStores(b.putCb) ==> PutsStored(log)
    // nothing but the maps of the callers' and frames' own userdata changes
    ensures forall u :: u !in FramesOf(acts) && (HasDo(acts) ==> UserOf(t.alive, t.stack) != Some(u)) ==>
      At(f', u) == At(f, u)
  {
    ghost var asked := Flatten(t.alive, UserOf(t.alive, t.stack), acts);
    HonestStaysInBuffer(b.getCb, b.putCb, view);
    f' := ServeExplained(b.getCb, b.putCb, view, ext.store, f, asked);
    if AlwaysStores(b.putCb) {
      NoPutRefused(b.getCb, b.putCb, ext.store, asked);
    }
    log := RunAll(b, t, ext, acts);
    forall u | u !in FramesOf(acts) && (HasDo(acts) ==> UserOf(t.alive, t.stack) != Some(u))
      ensures At(f', u) == At(f, u)
    {
      forall i | 0 <= i < |log| ensures log[i].user != Some(u) {
        RequestAt(log, i);
        FlattenUsers(t.alive, UserOf(t.alive, t.stack), acts, i);
      }
      MapUntouched(f, log, f', u);
    }
  }

  lemma {:induction false} MapUntouched(f: Family, log: seq<Event>, f': Family, u: Pointer)
    requires Replay(f, log, f') && forall i :: 0 <= i < |log| ==> log[i].user != Some(u)
    ensures At(f', u) == At(f, u)
    decreases log
  {
    if log == [] {
    } else {
      var mid :| Next(f, log[0], mid) && Replay(mid, log[1..], f');
      MapUntouched(mid, log[1..], f', u);
    }
  }

  // ---- What the family promises ----

  predicate Concerns(e: Event, u: Pointer, key: Bytes) {
    e.user == Some(u) && e.op.key == key
  }

  /** Both families have the same session under `u` and `key`, or both have none. */
  predicate SameSession(f: Family, f': Family, u: Pointer, key: Bytes) {
    && (key in At(f', u) <==> key in At(f, u))
    && (key in At(f, u) ==> At(f', u)[key] == At(f, u)[key])
  }

  lemma StepUndisturbed(f: Family, e: Event, f': Family, u: Pointer, key: Bytes)
    requires Next(f, e, f') && !Concerns(e, u, key)
    ensures SameSession(f, f', u, key)
  {
    if e.user == Some(u) && e.op.Put? {
      var k := e.op.key;
      assert key in At(f, u) <==> key in At(f, u) - {k};
      assert key in At(f', u) <==> key in At(f', u) - {k};
      assert key in At(f, u) ==> (At(f, u) - {k})[key] == At(f, u)[key];
      assert key in At(f', u) ==> (At(f', u) - {k})[key] == At(f', u)[key];
    }
  }

  /** A session survives everything that does not ask for it under the same userdata: other
      keys, and anything at all under other userdata. */
  lemma {:induction false} Undisturbed(f: Family, log: seq<Event>, f': Family, u: Pointer, key: Bytes)
    requires Replay(f, log, f')
    requires forall i :: 0 <= i < |log| ==> !Concerns(log[i], u, key)
    ensures SameSession(f, f', u, key)
    decreases log
  {
    if log == [] {
    } else {
      var mid :| Next(f, log[0], mid) && Replay(mid, log[1..], f');
      StepUndisturbed(f, log[0], mid, u, key);
      Undisturbed(mid, log[1..], f', u, key);
    }
  }

  /** The one reply that a lookup can get. */
  lemma LookupDetermined(f: Family, u: Pointer, key: Bytes, reply: Reply)
    ensures (exists f' :: Next(f, Event(Some(u), Get(key), reply), f')) <==> reply == Found(Fitting(At(f, u), key))
  {
    var m := At(f, u);
    var f' := f[u := if Fitting(m, key).Some? then m else m - {key}];
    assert At(f', u) == f'[u];
    if reply == Found(Fitting(m, key)) {
      assert Next(f, Event(Some(u), Get(key), reply), f');
    }
  }

  lemma ReplayFirst(f: Family, e: Event, log: seq<Event>, f': Family) returns (mid: Family)
    requires Replay(f, [e] + log, f')
    ensures Next(f, e, mid) && Replay(mid, log, f')
  {
    mid :| Next(f, ([e] + log)[0], mid) && Replay(mid, ([e] + log)[1..], f');
    assert ([e] + log)[1..] == log;
  }

  /** After a successful put, and any log that does not concern the key, a lookup answers with
      the value stored, or with nothing when the value is larger than the buffer. */
  lemma LastWriteFound(f: Family, u: Pointer, key: Bytes, value: Bytes, log: seq<Event>, now: Family, reply: Reply)
    requires Replay(f, [Event(Some(u), Put(key, value), Stored(true))] + log, now)
    requires forall i :: 0 <= i < |log| ==> !Concerns(log[i], u, key)
    ensures (exists f' :: Next(now, Event(Some(u), Get(key), reply), f'))
       <==> reply == Found(if |value| <= 66560 then Some(value) else None)
  {
    var mid := ReplayFirst(f, Event(Some(u), Put(key, value), Stored(true)), log, now);
    Undisturbed(mid, log, now, u, key);
    LookupDetermined(now, u, key, reply);
  }

  /** A value taken, or found too large, is gone until it is stored again. */
  lemma GoneAfter(f: Family, u: Pointer, key: Bytes, gone: Event, log: seq<Event>, now: Family, reply: Reply)
    requires Concerns(gone, u, key) && (gone.op.Take? || (gone.op.Get? && gone.reply == Found(None)))
    requires Replay(f, [gone] + log, now)
    requires forall i :: 0 <= i < |log| ==> !Concerns(log[i], u, key)
    ensures (exists f' :: Next(now, Event(Some(u), Get(key), reply), f')) <==> reply == Found(None)
  {
    var mid := ReplayFirst(f, gone, log, now);
    assert key !in At(mid, u);
    Undisturbed(mid, log, now, u, key);
    LookupDetermined(now, u, key, reply);
  }

  /** The same through the callbacks themselves: what a successful put stored is what a later get
      answers, whatever was asked for in between about other keys or under other userdata. */
  lemma {:induction false} StoredThenFound<S(!new)>(get: GetCallback<S>, put: PutCallback<S>, view: View<S>, s: S,
                                                    f: Family, u: Pointer, key: Bytes, value: Bytes,
                                                    between: seq<(Option<Pointer>, Op)>)
    requires Contract(get, put, view) && Agrees(view, s, f) && put(s, u, key, value).code == ResultCodes.OK
    requires forall i :: 0 <= i < |between| ==> !(between[i].0 == Some(u) && between[i].1.key == key)
    ensures var after := Serve(get, put, put(s, u, key, value).store, between).store;
      Ask(get, put, after, Some(u), Get(key)).reply == Found(if |value| <= 66560 then Some(value) else None)
  {
    var turn := Ask(get, put, s, Some(u), Put(key, value));
    var mid := AskExplained(get, put, view, s, f, Some(u), Put(key, value));
    assert key in At(mid, u) && At(mid, u)[key] == value;
    var served := Serve(get, put, turn.store, between);
    var now := ServeExplained(get, put, view, turn.store, mid, between);
    forall i | 0 <= i < |served.log| ensures !Concerns(served.log[i], u, key) {
      RequestAt(served.log, i);
    }
    Undisturbed(mid, served.log, now, u, key);
    var _ := AskExplained(get, put, view, served.store, now, Some(u), Get(key));
  }

  // ---- A store that meets the contract ----

  function Padded(value: Bytes, count: nat): Bytes {
    if |value| <= count then value + seq(count - |value|, i => 0) else seq(count, i => 0)
  }

  function MapGet(f: Family, u: Pointer, key: Bytes, remove: bool, count: nat): GetReply<Family> {
    var m := At(f, u);
    if key in m && |m[key]| <= count then
      GetReply(if remove then f[u := m - {key}] else f, ResultCodes.OK, Padded(m[key], count), |m[key]|)
    else
      GetReply(f[u := m - {key}], ResultCodes.NOT_FOUND, Padded([], count), 0)
  }

  function MapPut(f: Family, u: Pointer, key: Bytes, value: Bytes): PutReply<Family> {
    PutReply(f[u := At(f, u)[key := value]], ResultCodes.OK)
  }

  lemma MapGetHonest(f: Family, u: Pointer, key: Bytes, remove: bool, count: nat)
    ensures GetHonest(MapGet, At, f, u, key, remove, count)
  {
    var r, m := MapGet(f, u, key, remove, count), At(f, u);
    assert forall w :: w != u ==> At(r.store, w) == At(f, w);
    if key in m && |m[key]| <= count {
      assert r.buf[..r.outN] == m[key];
    }
  }

  lemma MapPutHonest(f: Family, u: Pointer, key: Bytes, value: Bytes)
    ensures PutHonest(MapPut, At, f, u, key, value)
  {
    var m := At(f, u);
    assert m[key := value] - {key} == m - {key};
  }

  lemma ContractIsMet()
    ensures Contract(MapGet, MapPut, At)
  {
    forall f: Family, u: Pointer, key: Bytes, remove: bool, count: nat
      ensures GetHonest(MapGet, At, f, u, key, remove, count)
    {
      MapGetHonest(f, u, key, remove, count);
    }
    forall f: Family, u: Pointer, key: Bytes, value: Bytes
      ensures PutHonest(MapPut, At, f, u, key, value)
    {
      MapPutHonest(f, u, key, value);
    }
  }
}
