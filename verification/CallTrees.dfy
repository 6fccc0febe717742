/**
 Nested calls of `rustls_connection_process_new_packets` on one thread.

 While packets are processed, rustls calls back into C; the callback may look up its
 userdata, log, change the fields of any connection, or process another connection.
 A body is the sequence of these actions up to the point where processing ends.
 */
module CallTrees {
  import opened Base
  import opened UserdataStack
  import ResultCodes

  type ConnId = nat

  datatype Ending = Finished | Failed(error: ResultCodes.Error) | Panicking

  datatype Action =
    | LookUp
    | Log
    | SetUserdata(conn: ConnId, userdata: Pointer)
    | SetLogCallback(conn: ConnId, callback: LogCallback)
    | Process(conn: ConnId, body: seq<Action>, ending: Ending)

  /** What C observes: the answers to lookups, the pair handed to the logger, result codes. */
  datatype Seen =
    | SawUserdata(answer: Result<Pointer>)
    | SawLog(pair: Result<(LogCallback, Pointer)>)
    | Returned(code: Code)

  type Fields = map<ConnId, Userdata>

  datatype History = History(seen: seq<Seen>, fields: Fields)

  function EndCode(e: Ending): Code {
    match e
    case Finished => ResultCodes.OK
    case Failed(error) => ResultCodes.MapError(error)
    case Panicking => ResultCodes.PANIC
  }

  function Visible(alive: bool, env: Option<Userdata>): Result<Userdata> {
    if !alive then Err(AccessError) else if env.None? then Err(EmptyStack) else Ok(env.value)
  }

  function UserdataPart(r: Result<Userdata>): Result<Pointer> {
    match r
    case Ok(u) => Ok(u.userdata)
    case Err(e) => Err(e)
  }

  function LogPart(r: Result<Userdata>): Result<(LogCallback, Pointer)> {
    match r
    case Ok(u) => Ok((u.logCallback, u.userdata))
    case Err(e) => Err(e)
  }

  /** The specification has no stack: a body is read in the environment `env`, the pair
      captured when the innermost enclosing call began. */
  function Scoped(alive: bool, env: Option<Userdata>, fields: Fields, acts: seq<Action>): History
    decreases acts
  {
    if acts == [] then History([], fields)
    else
      var first := ScopedOne(alive, env, fields, acts[0]);
      var rest := Scoped(alive, env, first.fields, acts[1..]);
      History(first.seen + rest.seen, rest.fields)
  }

  function ScopedOne(alive: bool, env: Option<Userdata>, fields: Fields, act: Action): History
    decreases act
  {
    match act
    case LookUp => History([SawUserdata(UserdataPart(Visible(alive, env)))], fields)
    case Log => History([SawLog(LogPart(Visible(alive, env)))], fields)
    case SetUserdata(c, u) =>
      History([], if c in fields then fields[c := fields[c].(userdata := u)] else fields)
    case SetLogCallback(c, cb) =>
      History([], if c in fields then fields[c := fields[c].(logCallback := cb)] else fields)
    case Process(c, body, ending) =>
      if c !in fields then History([Returned(ResultCodes.NULL_PARAMETER)], fields)
      else if !alive then History([Returned(ResultCodes.PANIC)], fields)
      else
        var inner := Scoped(alive, Some(fields[c]), fields, body);
        History(inner.seen + [Returned(EndCode(ending))], inner.fields)
  }

  /** The userdata and log callback of each connection; an id without fields is a NULL pointer. */
  class Connections {
    var fields: Fields

    constructor (fields: Fields)
      ensures this.fields == fields
    {
      this.fields := fields;
    }
  }

  ghost function Environment(t: ThreadLocal): Option<Userdata>
    reads t
  {
    if t.stack == [] then None else Some(t.stack[|t.stack| - 1])
  }

  /** How many calls a body makes that get as far as pushing a guard. */
  function Pushes(alive: bool, conns: set<ConnId>, acts: seq<Action>): nat
    decreases acts
  {
    if acts == [] then 0 else PushesOne(alive, conns, acts[0]) + Pushes(alive, conns, acts[1..])
  }

  function PushesOne(alive: bool, conns: set<ConnId>, act: Action): nat
    decreases act
  {
    if act.Process? && act.conn in conns && alive then 1 + Pushes(alive, conns, act.body) else 0
  }

  /** Each of `n` guards was popped once, without an error. */
  ghost predicate AllPopped(pops: seq<Result<()>>, n: nat) {
    |pops| == n && forall i :: 0 <= i < |pops| ==> pops[i] == Ok(())
  }

  /** `rustls_connection_process_new_packets`: on every path the stack is as it was, and every
      guard pushed on the way was popped without an error, during unwinding too (`pops` is
      what the stack recorded, also where the code discards it). So the code is that of the processing. */
  method ProcessNewPackets(t: ThreadLocal, conns: Connections, c: ConnId, body: seq<Action>, ending: Ending)
    returns (code: Code, seen: seq<Seen>, ghost pops: seq<Result<()>>)
    requires !t.borrowed
    modifies t, conns
    ensures t.stack == old(t.stack) && !t.borrowed && conns.fields.Keys == old(conns.fields.Keys)
    ensures AllPopped(pops, PushesOne(t.alive, old(conns.fields.Keys), Process(c, body, ending)))
    ensures t.popped == old(t.popped) + pops
    ensures t.alive && c in old(conns.fields) ==> code == EndCode(ending)
    ensures c !in old(conns.fields) ==> code == 7002
    ensures !t.alive && c in old(conns.fields) ==> code == 7004
    ensures t.alive && c in old(conns.fields) ==>
      code == match ending case Finished => 7000 case Failed(e) => ResultCodes.MapError(e) case Panicking => 7004
    ensures History(seen + [Returned(code)], conns.fields)
         == ScopedOne(t.alive, old(Environment(t)), old(conns.fields), Process(c, body, ending))
    decreases body, 1
  {
    pops := [];
    if c !in conns.fields {
      return ResultCodes.NULL_PARAMETER, [], pops;
    }
    var panic: Code, ended: Code := ResultCodes.PANIC, EndCode(ending);
    var pushed := t.Push(conns.fields[c].userdata, conns.fields[c].logCallback);
    if pushed.Err? {
      return panic, [], pops;
    }
    var guard := pushed.value;
    seen, pops := RunActions(t, conns, body);
    match ending {
      case Panicking =>
        // the unwinding drops the guard; the panic is caught at the FFI boundary
        ghost var popped := guard.Drop(t);
        pops := pops + [popped];
        code := panic;
      case _ =>
        var popped := guard.TryDrop(t);
        pops := pops + [popped];
        if popped.Ok? {
          code := ended;
        } else {
          code := panic;
        }
    }
  }

  method RunActions(t: ThreadLocal, conns: Connections, acts: seq<Action>)
    returns (seen: seq<Seen>, ghost pops: seq<Result<()>>)
    requires !t.borrowed
    modifies t, conns
    ensures t.stack == old(t.stack) && !t.borrowed && conns.fields.Keys == old(conns.fields.Keys)
    ensures AllPopped(pops, Pushes(t.alive, old(conns.fields.Keys), acts))
    ensures t.popped == old(t.popped) + pops
    ensures History(seen, conns.fields) == Scoped(t.alive, old(Environment(t)), old(conns.fields), acts)
    decreases acts, 0
  {
    if acts == [] {
      return [], [];
    }
    var first, rest;
    ghost var firstPops, restPops;
    first, firstPops := RunAction(t, conns, acts[0]);
    rest, restPops := RunActions(t, conns, acts[1..]);
    seen, pops := first + rest, firstPops + restPops;
  }

  method RunAction(t: ThreadLocal, conns: Connections, act: Action)
    returns (seen: seq<Seen>, ghost pops: seq<Result<()>>)
    requires !t.borrowed
    modifies t, conns
    ensures t.stack == old(t.stack) && !t.borrowed && conns.fields.Keys == old(conns.fields.Keys)
    ensures AllPopped(pops, PushesOne(t.alive, old(conns.fields.Keys), act))
    ensures t.popped == old(t.popped) + pops
    ensures History(seen, conns.fields) == ScopedOne(t.alive, old(Environment(t)), old(conns.fields), act)
    // in terms of the stack and the fields themselves
    ensures act.LookUp? && t.alive && t.stack != [] ==> seen == [SawUserdata(Ok(t.stack[|t.stack| - 1].userdata))]
    ensures act.Log? && t.alive && t.stack != [] ==>
      seen == [SawLog(Ok((t.stack[|t.stack| - 1].logCallback, t.stack[|t.stack| - 1].userdata)))]
    ensures act.LookUp? && t.alive && t.stack == [] ==> seen == [SawUserdata(Err(EmptyStack))]
    ensures act.Log? && t.alive && t.stack == [] ==> seen == [SawLog(Err(EmptyStack))]
    ensures act.SetUserdata? && act.conn in old(conns.fields) ==>
      conns.fields == old(conns.fields)[act.conn := Userdata(act.userdata, old(conns.fields)[act.conn].logCallback)]
    ensures act.SetLogCallback? && act.conn in old(conns.fields) ==>
      conns.fields == old(conns.fields)[act.conn := Userdata(old(conns.fields)[act.conn].userdata, act.callback)]
    decreases act, 2
  {
    pops := [];
    match act {
      case LookUp =>
        var top := t.Last();
        seen := [SawUserdata(UserdataPart(top))];
      case Log =>
        var top := t.Last();
        seen := [SawLog(LogPart(top))];
      case SetUserdata(c, u) =>
        if c in conns.fields {
          conns.fields := conns.fields[c := conns.fields[c].(userdata := u)];
        }
        seen := [];
      case SetLogCallback(c, cb) =>
        if c in conns.fields {
          conns.fields := conns.fields[c := conns.fields[c].(logCallback := cb)];
        }
        seen := [];
      case Process(c, body, ending) =>
        var code, inner;
        code, inner, pops := ProcessNewPackets(t, conns, c, body, ending);
        seen := inner + [Returned(code)];
    }
  }

  // ---- Consequences of lexical scoping ----

  /** What follows is read in the same environment, whatever came before: nested calls
      that finish, fail or panic leave no trace except in the connections' fields. */
  lemma {:induction false} NestingInvisible(alive: bool, env: Option<Userdata>, fields: Fields,
                                            acts: seq<Action>, later: seq<Action>)
    ensures var before := Scoped(alive, env, fields, acts);
            var after := Scoped(alive, env, before.fields, later);
            Scoped(alive, env, fields, acts + later) == History(before.seen + after.seen, after.fields)
    decreases acts
  {
    if acts == [] {
      assert acts + later == later;
    } else {
      var first := ScopedOne(alive, env, fields, acts[0]);
      ScopedFirst(alive, env, fields, acts[0], acts[1..] + later);
      assert acts + later == [acts[0]] + (acts[1..] + later);
      NestingInvisible(alive, env, first.fields, acts[1..], later);
      Associate(first.seen, Scoped(alive, env, first.fields, acts[1..]).seen,
                Scoped(alive, env, Scoped(alive, env, fields, acts).fields, later).seen);
    }
  }

  lemma Associate(a: seq<Seen>, b: seq<Seen>, c: seq<Seen>)
    ensures a + (b + c) == a + b + c
  {
  }

  lemma ScopedFirst(alive: bool, env: Option<Userdata>, fields: Fields, act: Action, rest: seq<Action>)
    ensures var first := ScopedOne(alive, env, fields, act);
            var after := Scoped(alive, env, first.fields, rest);
            Scoped(alive, env, fields, [act] + rest) == History(first.seen + after.seen, after.fields)
  {
  }

  /** Wherever a body looks up its userdata or logs, and whatever setters and nested calls come
      before or after, it gets the pair captured when the call around it began. */
  lemma CapturedPair(alive: bool, env: Option<Userdata>, fields: Fields, acts: seq<Action>, later: seq<Action>)
    ensures var before := Scoped(alive, env, fields, acts);
      var after := Scoped(alive, env, before.fields, later);
      && Scoped(alive, env, fields, acts + ([LookUp] + later)).seen
         == before.seen + ([SawUserdata(if !alive then Err(AccessError) else if env.None? then Err(EmptyStack)
                                        else Ok(env.value.userdata))] + after.seen)
      && Scoped(alive, env, fields, acts + ([Log] + later)).seen
         == before.seen + ([SawLog(if !alive then Err(AccessError) else if env.None? then Err(EmptyStack)
                                   else Ok((env.value.logCallback, env.value.userdata)))] + after.seen)
  {
    var before := Scoped(alive, env, fields, acts);
    NestingInvisible(alive, env, fields, acts, [LookUp] + later);
    ScopedFirst(alive, env, before.fields, LookUp, later);
    NestingInvisible(alive, env, fields, acts, [Log] + later);
    ScopedFirst(alive, env, before.fields, Log, later);
  }

  // ---- From a setter to the calls that follow ----

  /** Some action, at any depth, sets the userdata (or the log callback) of `c`. */
  predicate Sets(acts: seq<Action>, c: ConnId, log: bool)
    decreases acts
  {
    acts != [] && (SetsOne(acts[0], c, log) || Sets(acts[1..], c, log))
  }

  predicate SetsOne(act: Action, c: ConnId, log: bool)
    decreases act
  {
    match act
    case SetUserdata(d, _) => !log && d == c
    case SetLogCallback(d, _) => log && d == c
    case Process(_, body, _) => Sets(body, c, log)
    case _ => false
  }

  /** Both have the connection, with the same userdata (or log callback). */
  predicate SameField(f: Fields, f': Fields, c: ConnId, log: bool) {
    && (c in f <==> c in f')
    && (c in f ==> if log then f[c].logCallback == f'[c].logCallback else f[c].userdata == f'[c].userdata)
  }

  lemma {:induction false} FieldKept(alive: bool, env: Option<Userdata>, fields: Fields, acts: seq<Action>,
                                     c: ConnId, log: bool)
    requires !Sets(acts, c, log)
    ensures SameField(fields, Scoped(alive, env, fields, acts).fields, c, log)
    decreases acts, 0
  {
    if acts == [] {
    } else {
      FieldKeptOne(alive, env, fields, acts[0], c, log);
      FieldKept(alive, env, ScopedOne(alive, env, fields, acts[0]).fields, acts[1..], c, log);
    }
  }

  lemma {:induction false} FieldKeptOne(alive: bool, env: Option<Userdata>, fields: Fields, act: Action,
                                        c: ConnId, log: bool)
    requires !SetsOne(act, c, log)
    ensures SameField(fields, ScopedOne(alive, env, fields, act).fields, c, log)
    decreases act, 1
  {
    match act {
      case Process(d, body, _) =>
        if d in fields && alive {
          FieldKept(alive, Some(fields[d]), fields, body, c, log);
        }
      case _ =>
    }
  }

  /** Connections neither come nor go. */
  lemma {:induction false} ConnectionsKept(alive: bool, env: Option<Userdata>, fields: Fields, acts: seq<Action>)
    ensures Scoped(alive, env, fields, acts).fields.Keys == fields.Keys
    decreases acts, 0
  {
    if acts == [] {
    } else {
      match acts[0] {
        case Process(d, body, _) =>
          if d in fields && alive {
            ConnectionsKept(alive, Some(fields[d]), fields, body);
          }
        case _ =>
      }
      ConnectionsKept(alive, env, ScopedOne(alive, env, fields, acts[0]).fields, acts[1..]);
    }
  }

  /** The last setter decides, whatever happens before it, and whatever happens after it, at any
      depth, to other fields. */
  lemma LastSetter(alive: bool, env: Option<Userdata>, fields: Fields, earlier: seq<Action>, act: Action,
                   later: seq<Action>)
    requires act.SetUserdata? || act.SetLogCallback?
    requires act.conn in fields && !Sets(later, act.conn, act.SetLogCallback?)
    ensures var after := Scoped(alive, env, fields, earlier + ([act] + later)).fields;
      && act.conn in after
      && (act.SetUserdata? ==> after[act.conn].userdata == act.userdata)
      && (act.SetLogCallback? ==> after[act.conn].logCallback == act.callback)
  {
    var before := Scoped(alive, env, fields, earlier).fields;
    ConnectionsKept(alive, env, fields, earlier);
    NestingInvisible(alive, env, fields, earlier, [act] + later);
    ScopedFirst(alive, env, before, act, later);
    FieldKept(alive, env, ScopedOne(alive, env, before, act).fields, later, act.conn, act.SetLogCallback?);
  }

  /** What a callback sets stays set, however the call around it ends. */
  lemma InnerSetterStays(env: Option<Userdata>, fields: Fields, c: ConnId, earlier: seq<Action>, act: Action,
                         later: seq<Action>, ending: Ending)
    requires act.SetUserdata? || act.SetLogCallback?
    requires c in fields && act.conn in fields && !Sets(later, act.conn, act.SetLogCallback?)
    ensures var after := ScopedOne(true, env, fields, Process(c, earlier + ([act] + later), ending)).fields;
      && act.conn in after
      && (act.SetUserdata? ==> after[act.conn].userdata == act.userdata)
      && (act.SetLogCallback? ==> after[act.conn].logCallback == act.callback)
  {
    LastSetter(true, Some(fields[c]), fields, earlier, act, later);
  }

  /** A call made with the fields `f` shows its callbacks the connection's own pair, wherever they
      look it up, and then returns the code of its ending. */
  lemma CallShowsFields(env: Option<Userdata>, f: Fields, c: ConnId, body: seq<Action>, rest: seq<Action>,
                        ending: Ending)
    requires c in f
    ensures var n := |Scoped(true, Some(f[c]), f, body).seen|;
      var looked := ScopedOne(true, env, f, Process(c, body + ([LookUp] + rest), ending)).seen;
      var logged := ScopedOne(true, env, f, Process(c, body + ([Log] + rest), ending)).seen;
      && n < |looked| - 1 && looked[n] == SawUserdata(Ok(f[c].userdata))
      && n < |logged| - 1 && logged[n] == SawLog(Ok((f[c].logCallback, f[c].userdata)))
      && looked[|looked| - 1] == Returned(EndCode(ending))
  {
    CapturedPair(true, Some(f[c]), f, body, rest);
  }

  /** What the last setters gave is what a later call shows, anywhere in its body: `u` was set, then
      `cb`, with nothing but other fields set after each. */
  lemma SettersSeen(env: Option<Userdata>, fields: Fields, earlier: seq<Action>, c: ConnId, u: Pointer,
                    between: seq<Action>, cb: LogCallback, later: seq<Action>, body: seq<Action>, rest: seq<Action>,
                    ending: Ending)
    requires c in fields && !Sets(between, c, false) && !Sets(later, c, false) && !Sets(later, c, true)
    ensures var start := Scoped(true, env, fields, earlier + ([SetUserdata(c, u)] + between)).fields;
      var f := Scoped(true, env, start, [SetLogCallback(c, cb)] + later).fields;
      && c in f
      && var n := |Scoped(true, Some(f[c]), f, body).seen|;
      var looked := ScopedOne(true, env, f, Process(c, body + ([LookUp] + rest), ending)).seen;
      var logged := ScopedOne(true, env, f, Process(c, body + ([Log] + rest), ending)).seen;
      && n < |looked| - 1 && looked[n] == SawUserdata(Ok(u))
      && n < |logged| - 1 && logged[n] == SawLog(Ok((cb, u)))
      && looked[|looked| - 1] == Returned(EndCode(ending))
  {
    LastSetter(true, env, fields, earlier, SetUserdata(c, u), between);
    var start := Scoped(true, env, fields, earlier + ([SetUserdata(c, u)] + between)).fields;
    var acts := [SetLogCallback(c, cb)] + later;
    LastSetter(true, env, start, [], SetLogCallback(c, cb), later);
    assert [] + acts == acts;
    assert acts[1..] == later;
    FieldKept(true, env, start, acts, c, false);
    CallShowsFields(env, Scoped(true, env, start, acts).fields, c, body, rest, ending);
  }
}
