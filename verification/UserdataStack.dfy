/**
 The per-thread stack of userdata pointers and log callbacks, and the guards that pop it.

 Every guard pops at most one entry, over any history of pushes, pops and drops, and a drop
 out of order is noticed by comparing pointers.
 */
module UserdataStack {
  import opened Base
  import ResultCodes

  type Code = ResultCodes.Code
  type Pointer = nat
  type LogCallback = Option<nat>

  /** One entry of the stack, and equally the two fields of a connection it is copied from. */
  datatype Userdata = Userdata(userdata: Pointer, logCallback: LogCallback)

  datatype UserdataError = AlreadyPopped | AlreadyBorrowed | EmptyStack | AccessError | WrongData

  datatype Result<+T> = Ok(value: T) | Err(error: UserdataError)

  /** The outcome of popping for a guard that remembers `data`. */
  datatype Popped = Popped(stack: seq<Userdata>, data: Option<Pointer>, result: Result<()>)

  /** What `try_pop` does: an inaccessible or borrowed stack is left alone. */
  function TryPopSpec(alive: bool, borrowed: bool, stack: seq<Userdata>, data: Option<Pointer>): Popped {
    if data.Some? && !alive then Popped(stack, data, Err(AccessError))
    else if data.Some? && borrowed then Popped(stack, data, Err(AlreadyBorrowed))
    else PopOnce(stack, data)
  }

  /** `try_pop` on an accessible, unborrowed stack. */
  function PopOnce(stack: seq<Userdata>, data: Option<Pointer>): Popped {
    if data.None? then Popped(stack, data, Err(AlreadyPopped))
    else if stack == [] then Popped(stack, data, Err(EmptyStack))
    else
      var top := stack[|stack| - 1];
      Popped(stack[..|stack| - 1], None, if top.userdata == data.value then Ok(()) else Err(WrongData))
  }

  class ThreadLocal {
    var stack: seq<Userdata>
    /** The RefCell's borrow flag. */
    var borrowed: bool
    /** The result of every pop so far by a guard that had not popped, in order. */
    ghost var popped: seq<Result<()>>
    /** False once the thread-local has been destroyed. */
    const alive: bool

    constructor (alive: bool)
      ensures stack == [] && !borrowed && this.alive == alive && popped == []
    {
      this.alive := alive;
      stack, borrowed, popped := [], false, [];
    }

    /** `userdata_push`. */
    method Push(u: Pointer, cb: LogCallback) returns (r: Result<Guard>)
      modifies this`stack, this`borrowed
      ensures !alive ==> r == Err(AccessError) && stack == old(stack) && borrowed == old(borrowed)
      ensures alive && old(borrowed) ==> r == Err(AlreadyBorrowed) && stack == old(stack) && borrowed
      ensures alive && !old(borrowed) ==>
        && r.Ok? && fresh(r.value) && r.value.data == Some(u)
        && stack == old(stack) + [Userdata(u, cb)] && !borrowed
    {
      if !alive {
        return Err(AccessError);
      }
      if borrowed {
        return Err(AlreadyBorrowed);
      }
      borrowed := true;
      stack := stack + [Userdata(u, cb)];
      borrowed := false;
      var guard := new Guard(u);
      r := Ok(guard);
    }

    /** The common body of `userdata_get` and `log_callback_get`. */
    method Last() returns (r: Result<Userdata>)
      modifies this`borrowed
      ensures borrowed == old(borrowed)
      ensures r == if !alive then Err(AccessError)
                   else if borrowed then Err(AlreadyBorrowed)
                   else TopOf(stack)
      ensures alive && !borrowed && stack != [] ==> r == Ok(stack[|stack| - 1])
      ensures r.Ok? <==> alive && !borrowed && stack != []
    {
      if !alive {
        return Err(AccessError);
      }
      if borrowed {
        return Err(AlreadyBorrowed);
      }
      borrowed := true;
      r := if stack == [] then Err(EmptyStack) else Ok(stack[|stack| - 1]);
      borrowed := false;
    }
  }

  function TopOf(stack: seq<Userdata>): Result<Userdata> {
    if stack == [] then Err(EmptyStack) else Ok(stack[|stack| - 1])
  }

  /** What a pop for a guard that remembers `data` adds to the record of pops. */
  function PopRecord(data: Option<Pointer>, r: Result<()>): seq<Result<()>> {
    if data.Some? then [r] else []
  }

  class Guard {
    var data: Option<Pointer>

    constructor (u: Pointer)
      ensures data == Some(u)
    {
      data := Some(u);
    }

    /** `try_pop`: the first four cases leave stack and guard alone; the last pops even when the
        pointers differ. */
    method TryPop(t: ThreadLocal) returns (r: Result<()>)
      modifies this, t
      ensures t.borrowed == old(t.borrowed)
      ensures old(data).None? ==> r == Err(AlreadyPopped)
      ensures old(data).Some? && !t.alive ==> r == Err(AccessError)
      ensures old(data).Some? && t.alive && t.borrowed ==> r == Err(AlreadyBorrowed)
      ensures old(data).Some? && t.alive && !t.borrowed && old(t.stack) == [] ==> r == Err(EmptyStack)
      ensures old(data).None? || !t.alive || t.borrowed || old(t.stack) == [] ==>
        t.stack == old(t.stack) && data == old(data)
      ensures old(data).Some? && t.alive && !t.borrowed && old(t.stack) != [] ==>
        var n := |old(t.stack)| - 1;
        && t.stack == old(t.stack)[..n] && data == None
        && r == if old(t.stack)[n].userdata == old(data).value then Ok(()) else Err(WrongData)
      ensures Popped(t.stack, data, r) == TryPopSpec(t.alive, t.borrowed, old(t.stack), old(data))
      ensures t.popped == old(t.popped) + PopRecord(old(data), r)
    {
      if data.None? {
        return Err(AlreadyPopped);
      }
      var expected := data.value;
      if !t.alive {
        t.popped := t.popped + [Err(AccessError)];
        return Err(AccessError);
      }
      if t.borrowed {
        t.popped := t.popped + [Err(AlreadyBorrowed)];
        return Err(AlreadyBorrowed);
      }
      t.borrowed := true;
      if t.stack == [] {
        r := Err(EmptyStack);
      } else {
        var top := t.stack[|t.stack| - 1];
        t.stack := t.stack[..|t.stack| - 1];
        data := None;
        r := if top.userdata == expected then Ok(()) else Err(WrongData);
      }
      t.borrowed := false;
      t.popped := t.popped + [r];
    }

    /** `Drop for UserdataGuard`: the result is discarded by the code. */
    method Drop(t: ThreadLocal) returns (ghost discarded: Result<()>)
      modifies this, t
      ensures t.borrowed == old(t.borrowed)
      ensures Popped(t.stack, data, discarded) == TryPopSpec(t.alive, t.borrowed, old(t.stack), old(data))
      ensures t.popped == old(t.popped) + PopRecord(old(data), discarded)
    {
      var r := TryPop(t);
      discarded := r;
    }

    /** `try_drop` consumes the guard, so `Drop` runs right after `try_pop`. It tries again iff the
        first attempt did not get as far as popping, and then with the same result. */
    method TryDrop(t: ThreadLocal) returns (r: Result<()>)
      modifies this, t
      ensures t.borrowed == old(t.borrowed)
      ensures Popped(t.stack, data, r) == TryPopSpec(t.alive, t.borrowed, old(t.stack), old(data))
      ensures t.popped == old(t.popped) + PopRecord(old(data), r) + PopRecord(data, r)
    {
      r := TryPop(t);
      var _ := Drop(t);
    }
  }

  // ---- At most one pop per guard, over all histories of guards ----

  /** The three ways to pop for a guard. */
  datatype PopKind = ByTryPop | ByTryDrop | ByDrop

  datatype GuardOp = PushOp(u: Pointer, cb: LogCallback) | PopOp(guard: nat, kind: PopKind)

  datatype Guards = Guards(stack: seq<Userdata>, data: seq<Option<Pointer>>)

  /** Push makes a new guard; TryPop, TryDrop and Drop on guard i all act as `PopOnce`.
      An op on a guard that does not exist changes nothing. */
  function GuardStep(s: Guards, op: GuardOp): Guards {
    match op
    case PushOp(u, cb) => Guards(s.stack + [Userdata(u, cb)], s.data + [Some(u)])
    case PopOp(i, _) =>
      if i >= |s.data| then s
      else
        var p := PopOnce(s.stack, s.data[i]);
        Guards(p.stack, s.data[i := p.data])
  }

  function GuardRun(s: Guards, ops: seq<GuardOp>): Guards
    decreases ops
  {
    if ops == [] then s else GuardRun(GuardStep(s, ops[0]), ops[1..])
  }

  /** The pops that an op makes for a guard that has not popped, with their results. TryDrop
      tries twice when there is nothing to pop. */
  function StepResults(s: Guards, op: GuardOp): seq<Result<()>> {
    if op.PushOp? || op.guard >= |s.data| then []
    else
      var p := PopOnce(s.stack, s.data[op.guard]);
      PopRecord(s.data[op.guard], p.result) + (if op.kind == ByTryDrop then PopRecord(p.data, p.result) else [])
  }

  /** The results of the pops in a run. */
  function GuardResults(s: Guards, ops: seq<GuardOp>): seq<Result<()>>
    decreases ops
  {
    if ops == [] then [] else StepResults(s, ops[0]) + GuardResults(GuardStep(s, ops[0]), ops[1..])
  }

  /** The number of guards that have not popped yet. */
  function Pending(data: seq<Option<Pointer>>): nat {
    if data == [] then 0
    else Pending(data[..|data| - 1]) + (if data[|data| - 1].Some? then 1 else 0)
  }

  lemma {:induction false} PendingUpdate(data: seq<Option<Pointer>>, i: nat)
    requires i < |data|
    ensures Pending(data[i := None]) == Pending(data) - (if data[i].Some? then 1 else 0)
    ensures data[i].Some? ==> Pending(data) > 0
  {
    var n := |data| - 1;
    if i == n {
      assert data[i := None][..n] == data[..n];
    } else {
      assert data[i := None][..n] == data[..n][i := None];
      PendingUpdate(data[..n], i);
    }
  }

  /** Whatever is popped in whatever order, the height of the stack is the number of guards
      still to pop, and no pop ever finds it empty. */
  lemma {:induction false} HeightIsPending(s: Guards, ops: seq<GuardOp>)
    requires |s.stack| == Pending(s.data)
    ensures |GuardRun(s, ops).stack| == Pending(GuardRun(s, ops).data)
    ensures Err(EmptyStack) !in GuardResults(s, ops)
    decreases ops
  {
    if ops == [] {
    } else {
      var next := GuardStep(s, ops[0]);
      match ops[0] {
        case PushOp(u, cb) =>
          assert next.data[..|s.data|] == s.data;
        case PopOp(i, _) =>
          if i < |s.data| {
            PendingUpdate(s.data, i);
            assert s.data[i].None? ==> s.data[i := None] == s.data;
          }
      }
      HeightIsPending(next, ops[1..]);
    }
  }

  /** A guard that has popped stays popped, and using it again changes nothing. */
  lemma {:induction false} PopsAtMostOnce(s: Guards, ops: seq<GuardOp>, i: nat, kind: PopKind)
    requires i < |s.data| && s.data[i].None?
    ensures var after := GuardRun(s, ops);
            i < |after.data| && after.data[i].None? && GuardStep(after, PopOp(i, kind)) == after
    decreases ops
  {
    if ops == [] {
      assert s.data[i := None] == s.data;
    } else {
      PopsAtMostOnce(GuardStep(s, ops[0]), ops[1..], i, kind);
    }
  }

  // ---- The same histories on guard objects ----

  ghost predicate Distinct(guards: seq<Guard>) {
    forall i, j :: 0 <= i < j < |guards| ==> guards[i] != guards[j]
  }

  ghost function DataOf(guards: seq<Guard>): seq<Option<Pointer>>
    reads guards
  {
    seq(|guards|, i requires 0 <= i < |guards| reads guards => guards[i].data)
  }

  ghost function StateOf(t: ThreadLocal, guards: seq<Guard>): Guards
    reads t, guards
  {
    Guards(t.stack, DataOf(guards))
  }

  /** One operation on real objects is one step of the history. */
  method RunGuardOp(t: ThreadLocal, guards: seq<Guard>, op: GuardOp) returns (after: seq<Guard>)
    requires t.alive && !t.borrowed && Distinct(guards)
    modifies t, guards
    ensures !t.borrowed && Distinct(after)
    ensures guards <= after && forall i :: |guards| <= i < |after| ==> fresh(after[i])
    ensures StateOf(t, after) == GuardStep(old(StateOf(t, guards)), op)
    ensures t.popped == old(t.popped) + StepResults(old(StateOf(t, guards)), op)
  {
    after := guards;
    match op {
      case PushOp(u, cb) =>
        var pushed := t.Push(u, cb);
        after := guards + [pushed.value];
      case PopOp(i, kind) =>
        if i < |guards| {
          match kind {
            case ByTryPop => var _ := guards[i].TryPop(t);
            case ByTryDrop => var _ := guards[i].TryDrop(t);
            case ByDrop => var _ := guards[i].Drop(t);
          }
        }
    }
  }

  lemma Rejoin(a: seq<Result<()>>, b: seq<Result<()>>, c: seq<Result<()>>)
    ensures (a + b) + c == a + (b + c)
  {
  }

  /** Any history, run on a real stack with guards that exist already. */
  method RunFrom(t: ThreadLocal, guards: seq<Guard>, ops: seq<GuardOp>) returns (after: seq<Guard>)
    requires t.alive && !t.borrowed && Distinct(guards)
    modifies t, guards
    ensures !t.borrowed && Distinct(after)
    ensures StateOf(t, after) == GuardRun(old(StateOf(t, guards)), ops)
    ensures t.popped == old(t.popped) + GuardResults(old(StateOf(t, guards)), ops)
    decreases ops
  {
    if ops == [] {
      return guards;
    }
    ghost var start, before := StateOf(t, guards), t.popped;
    var next := RunGuardOp(t, guards, ops[0]);
    ghost var mid := StateOf(t, next);
    after := RunFrom(t, next, ops[1..]);
    Rejoin(before, StepResults(start, ops[0]), GuardResults(mid, ops[1..]));
  }

  /** Any history from an empty stack: `HeightIsPending` and `PopsAtMostOnce` speak about these
      objects, and the results are those that the stack recorded. */
  method RunGuards(t: ThreadLocal, ops: seq<GuardOp>) returns (guards: seq<Guard>)
    requires t.alive && !t.borrowed && t.stack == []
    modifies t
    ensures !t.borrowed && Distinct(guards)
    ensures StateOf(t, guards) == GuardRun(Guards([], []), ops)
    ensures |t.stack| == Pending(DataOf(guards))
    ensures t.popped == old(t.popped) + GuardResults(Guards([], []), ops)
    ensures Err(EmptyStack) !in t.popped[|old(t.popped)|..]
  {
    guards := RunFrom(t, [], ops);
    HeightIsPending(Guards([], []), ops);
  }

  // ---- Dropping the top guards out of order ----

  datatype Drops = Drops(stack: seq<Userdata>, results: seq<Result<()>>)

  /** Drop guards that expect the pointers `expected`, in that order. */
  function DropAll(stack: seq<Userdata>, expected: seq<Pointer>): Drops
    decreases expected
  {
    if expected == [] then Drops(stack, [])
    else
      var p := PopOnce(stack, Some(expected[0]));
      var rest := DropAll(p.stack, expected[1..]);
      Drops(rest.stack, [p.result] + rest.results)
  }

  /** The drops, in any order, of guards that have not popped. */
  method DropGuards(t: ThreadLocal, guards: seq<Guard>)
    requires t.alive && !t.borrowed && Distinct(guards)
    requires forall i :: 0 <= i < |guards| ==> guards[i].data.Some?
    modifies t, guards
    ensures var drops := DropAll(old(t.stack), Expected(old(DataOf(guards))));
      t.stack == drops.stack && t.popped == old(t.popped) + drops.results
    decreases |guards|
  {
    if guards != [] {
      var rest := guards[1..];
      ghost var expected := Expected(DataOf(guards));
      assert Expected(DataOf(rest)) == expected[1..];
      var _ := guards[0].Drop(t);
      assert Expected(DataOf(rest)) == expected[1..];
      DropGuards(t, rest);
    }
  }

  function Expected(data: seq<Option<Pointer>>): seq<Pointer>
    requires forall i :: 0 <= i < |data| ==> data[i].Some?
  {
    seq(|data|, i requires 0 <= i < |data| => data[i].value)
  }

  /** Dropping k guards removes exactly the top k entries whatever the order; drop number i
      succeeds iff its pointer is that of the i-th entry from the top. Hence all succeed
      iff the drop order reverses the push order, up to equal pointers. */
  lemma {:induction false} DropAllTop(stack: seq<Userdata>, expected: seq<Pointer>)
    requires |expected| <= |stack|
    ensures DropAll(stack, expected).stack == stack[..|stack| - |expected|]
    ensures |DropAll(stack, expected).results| == |expected|
    ensures forall i :: 0 <= i < |expected| ==>
      DropAll(stack, expected).results[i]
      == if stack[|stack| - 1 - i].userdata == expected[i] then Ok(()) else Err(WrongData)
    decreases expected
  {
    if expected == [] {
    } else {
      var below := stack[..|stack| - 1];
      DropAllTop(below, expected[1..]);
      assert below[..|below| - |expected[1..]|] == stack[..|stack| - |expected|];
      forall i | 0 < i < |expected|
        ensures DropAll(stack, expected).results[i]
             == if stack[|stack| - 1 - i].userdata == expected[i] then Ok(()) else Err(WrongData)
      {
        assert DropAll(stack, expected).results[i] == DropAll(below, expected[1..]).results[i - 1];
      }
    }
  }
}
