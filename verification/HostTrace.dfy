/**
 What a run of the EVM means to the Host, without a stack.

 A `Code` is one frame's execution as a call tree. `Trace` lists the hook calls that the EVM makes for
 it; `Exec` gives its meaning by recursion over the tree, one frame at a time. The step machine of
 `HostState`, which rebuilds frames from reported depths, computes exactly that meaning.
 */
module HostTrace {
  import opened Prelude
  import opened HostState

  /** One frame's execution, from some point on. */
  datatype Code =
    | Done
    | Plain(pc: nat, op: Op, salt: Option<nat>, next: Code)
    | Sub(call: Call, next: Code)
    | Do(cheat: Cheat, next: Code)

  /**
   A sub-call: the opcode that makes it, the caller the EVM asks the Host to override (when it does),
   the callee, the callee's body, and its gas.
   */
  datatype Call = Call(
    pc: nat,
    op: Op,
    salt: Option<nat>,
    caller: Option<Address>,
    to: Address,
    body: Body,
    gas: U64)

  /**
   A precompile or an account without code executes no opcode and opens no frame; the cheatcode
   precompile issues commands meanwhile. Any other callee opens a frame with its first opcode, after
   the EVM's own nonce writes (such as those of a contract creation).
   */
  datatype Body =
    | NoFrame(cheats: seq<Cheat>)
    | Framed(writes: seq<NonceWrite>, scope: Scope, pc: nat, op: Op, salt: Option<nat>, code: Code)

  datatype NonceWrite = NonceWrite(address: Address, nonce: U64)

  function Writes(ws: seq<NonceWrite>): seq<Cheat> {
    if ws == [] then [] else [WriteNonce(ws[0].address, ws[0].nonce)] + Writes(ws[1..])
  }

  /** What is issued on top of the calling frame between entry and the callee's first opcode. */
  function Prologue(b: Body): seq<Cheat> {
    match b
    case NoFrame(cheats) => cheats
    case Framed(writes, _, _, _, _, _) => Writes(writes)
  }

  function Commands(cs: seq<Cheat>): seq<Event> {
    if cs == [] then [] else [Command(cs[0])] + Commands(cs[1..])
  }

  /** The hook calls up to the point where the callee's body starts. */
  function EntryTrace(c: Call, scope: Scope, depth: int): seq<Event>
  {
    [Opcode(c.pc, c.op, c.salt, scope, depth)]
    + (if c.caller.Some? then [Caller(c.caller.value)] else [])
    + [Enter(c.op, c.to)]
    + Commands(Prologue(c.body))
  }

  /** The hook calls of a frame at `depth` running `c` in `scope`. */
  function Trace(c: Code, scope: Scope, depth: int): seq<Event> {
    match c
    case Done => []
    case Plain(pc, op, salt, next) => [Opcode(pc, op, salt, scope, depth)] + Trace(next, scope, depth)
    case Sub(call, next) =>
      EntryTrace(call, scope, depth)
      + ((BodyTrace(call.body, depth + 1) + [Exit(depth, call.gas)]) + Trace(next, scope, depth))
    case Do(cheat, next) => [Command(cheat)] + Trace(next, scope, depth)
  }

  /** The hook calls of a callee's body at `depth`. */
  function BodyTrace(b: Body, depth: int): seq<Event> {
    match b
    case NoFrame(_) => []
    case Framed(_, scope, pc, op, salt, code) => [Opcode(pc, op, salt, scope, depth)] + Trace(code, scope, depth)
  }

  // ---------- the meaning of a call tree ----------

  datatype Local = Local(frame: Frame, world: World)

  function ApplyLocal(l: Local, c: Cheat): Local {
    Local(ApplyFrame(l.frame, l.world, c), ApplyWorld(l.world, c))
  }

  function ApplyAll(l: Local, cs: seq<Cheat>): Local
    decreases |cs|
  {
    if cs == [] then l else ApplyAll(ApplyLocal(l, cs[0]), cs[1..])
  }

  function ObserveLocal(l: Local, pc: nat, op: Op, salt: Option<nat>): Local {
    Local(ObserveOp(l.frame, pc, op, salt), GrantCheatcodes(l.frame.ctx, l.world))
  }

  /** The calling frame right after the EVM may have asked for a caller override. */
  function AfterCaller(cfg: Config, c: Call, l: Local): Local
  {
    var l1 := ObserveLocal(l, c.pc, c.op, c.salt);
    if c.caller.Some? then l1.(world := CallerOrigin(cfg, l1.frame, c.caller.value, l1.world)) else l1
  }

  /** The calling frame right after the entry hook. */
  function AfterEnter(cfg: Config, c: Call, l: Local): Local
  {
    var l2 := AfterCaller(cfg, c, l);
    l2.(world := EnterWorld(l2.frame, c.to, l2.world))
  }

  /** The calling frame when the callee's body starts. */
  function Entry(cfg: Config, c: Call, l: Local): Local
  {
    ApplyAll(AfterEnter(cfg, c, l), Prologue(c.body))
  }

  /** The callee's frame after its first opcode. */
  function Child(l: Local, b: Body): Local
    requires b.Framed?
  {
    var w := GrantCheatcodes(b.scope, l.world);
    Local(ObserveOp(OpenFrame(b.scope, l.frame.depth + 1, b.pc, b.op, w), b.pc, b.op, b.salt), w)
  }

  /** The callee opens a frame and gets past its first opcode. */
  predicate Enters(c: Call) {
    c.body.Framed? && !Short(c.op, c.salt) && !Short(c.body.op, c.body.salt)
  }

  function Close(cfg: Config, parent: Frame, child: Local, gas: U64): Result<Local> {
    match CloseChild(cfg, parent, AddGas(child.frame, gas), child.world)
    case Panic => Panic
    case Ok((f, w)) => Ok(Local(f, w))
  }

  /** The calling frame and the world after a whole sub-call. */
  function ExecSub(cfg: Config, c: Call, l: Local): Result<Local>
    decreases c, 0
  {
    var e := Entry(cfg, c, l);
    if Short(c.op, c.salt) then Panic
    else if c.body.NoFrame? then Ok(e.(frame := AddGas(e.frame, c.gas)))
    else if Short(c.body.op, c.body.salt) then Panic
    else
      match Exec(cfg, c.body.code, Child(e, c.body))
      case Panic => Panic
      case Ok(child) => Close(cfg, e.frame, child, c.gas)
  }

  function Exec(cfg: Config, c: Code, l: Local): Result<Local>
    decreases c, 1
  {
    match c
    case Done => Ok(l)
    case Plain(pc, op, salt, next) => if Short(op, salt) then Panic else Exec(cfg, next, ObserveLocal(l, pc, op, salt))
    case Sub(call, next) =>
      (match ExecSub(cfg, call, l)
       case Panic => Panic
       case Ok(l1) => Exec(cfg, next, l1))
    case Do(cheat, next) => Exec(cfg, next, ApplyLocal(l, cheat))
  }

  /** The machine state that has `l` on top of the suspended frames `below`. */
  function Lift(below: seq<Frame>, l: Local): State {
    State(below + [l.frame], l.world)
  }

  function LiftResult(below: seq<Frame>, r: Result<Local>): Result<State> {
    match r
    case Panic => Panic
    case Ok(l) => Ok(Lift(below, l))
  }

  /** `l` runs in the same frame as `l0`: same depth, same scope. */
  ghost predicate SameFrame(l0: Local, l: Local) {
    l.frame.depth == l0.frame.depth && l.frame.ctx == l0.frame.ctx && l.frame.callerNonce == l0.frame.callerNonce
  }

  lemma {:induction false} ApplyAllSameFrame(l: Local, cs: seq<Cheat>)
    ensures SameFrame(l, ApplyAll(l, cs))
    decreases |cs|
  {
    if cs != [] {
      ApplyAllSameFrame(ApplyLocal(l, cs[0]), cs[1..]);
    }
  }

  lemma {:induction false} EntrySameFrame(cfg: Config, c: Call, l: Local)
    ensures SameFrame(l, Entry(cfg, c, l))
  {
    ApplyAllSameFrame(AfterEnter(cfg, c, l), Prologue(c.body));
  }

  lemma {:induction false} ExecSubSameFrame(cfg: Config, c: Call, l: Local)
    ensures ExecSub(cfg, c, l).Ok? ==> SameFrame(l, ExecSub(cfg, c, l).value)
  {
    EntrySameFrame(cfg, c, l);
  }

  lemma {:induction false} ExecSameFrame(cfg: Config, c: Code, l: Local)
    ensures Exec(cfg, c, l).Ok? ==> SameFrame(l, Exec(cfg, c, l).value)
    decreases c
  {
    match c
    case Done =>
    case Plain(pc, op, salt, next) => ExecSameFrame(cfg, next, ObserveLocal(l, pc, op, salt));
    case Sub(call, next) =>
      ExecSubSameFrame(cfg, call, l);
      if ExecSub(cfg, call, l).Ok? {
        ExecSameFrame(cfg, next, ExecSub(cfg, call, l).value);
      }
    case Do(cheat, next) => ExecSameFrame(cfg, next, ApplyLocal(l, cheat));
  }

  // ---------- the machine computes the meaning ----------

  /** An opcode of the frame on top: nothing is popped or pushed. */
  lemma {:induction false} StepOpcode(cfg: Config, below: seq<Frame>, l: Local, pc: nat, op: Op, salt: Option<nat>)
    ensures Step(cfg, Lift(below, l), Opcode(pc, op, salt, l.frame.ctx, l.frame.depth))
         == if Short(op, salt) then Panic else Ok(Lift(below, ObserveLocal(l, pc, op, salt)))
  {
  }

  /** The first opcode of a callee pushes its frame on the suspended caller. */
  lemma {:induction false} StepFirstOpcode(cfg: Config, below: seq<Frame>, l: Local, b: Body)
    requires b.Framed?
    ensures Step(cfg, Lift(below, l), Opcode(b.pc, b.op, b.salt, b.scope, l.frame.depth + 1))
         == if Short(b.op, b.salt) then Panic else Ok(Lift(below + [l.frame], Child(l, b)))
  {
  }

  /** The exit of a callee pops exactly its frame. */
  lemma {:induction false} StepExit(cfg: Config, below: seq<Frame>, parent: Frame, child: Local, gas: U64)
    requires child.frame.depth == parent.depth + 1
    ensures Step(cfg, Lift(below + [parent], child), Exit(parent.depth, gas))
         == LiftResult(below, Close(cfg, parent, child, gas))
  {
    var s := Lift(below + [parent], child);
    var g := AddGas(child.frame, gas);
    assert SetTop(s, g) == State(below + [parent] + [g], child.world);
    var t := State(below + [parent] + [g], child.world);
    assert t.stack[|t.stack| - 2] == parent && t.stack[..|t.stack| - 2] == below;
    if CloseChild(cfg, parent, g, child.world).Ok? {
      var (f, w) := CloseChild(cfg, parent, g, child.world).value;
      assert Unwind(cfg, State(below + [f], w), parent.depth) == Ok(State(below + [f], w));
    }
  }

  /** The exit of a callee that opened no frame pops nothing, and charges its gas to the caller's frame. */
  lemma {:induction false} StepExitNoFrame(cfg: Config, below: seq<Frame>, l: Local, gas: U64)
    ensures Step(cfg, Lift(below, l), Exit(l.frame.depth, gas)) == Ok(Lift(below, l.(frame := AddGas(l.frame, gas))))
  {
  }

  lemma {:induction false} StepCommand(cfg: Config, below: seq<Frame>, l: Local, c: Cheat)
    ensures Step(cfg, Lift(below, l), Command(c)) == Ok(Lift(below, ApplyLocal(l, c)))
  {
  }

  lemma {:induction false} RunCommands(cfg: Config, below: seq<Frame>, l: Local, cs: seq<Cheat>)
    ensures Run(cfg, Lift(below, l), Commands(cs)) == Ok(Lift(below, ApplyAll(l, cs)))
    decreases |cs|
  {
    if cs != [] {
      StepCommand(cfg, below, l, cs[0]);
      assert Commands(cs)[1..] == Commands(cs[1..]);
      RunCommands(cfg, below, ApplyLocal(l, cs[0]), cs[1..]);
    }
  }

  lemma {:induction false} RunOne(cfg: Config, s: State, e: Event)
    ensures Run(cfg, s, [e]) == Step(cfg, s, e)
  {
  }

  lemma {:induction false} StepCaller(cfg: Config, below: seq<Frame>, l: Local, caller: Address)
    ensures Step(cfg, Lift(below, l), Caller(caller))
         == Ok(Lift(below, l.(world := CallerOrigin(cfg, l.frame, caller, l.world))))
  {
  }

  lemma {:induction false} StepEnter(cfg: Config, below: seq<Frame>, l: Local, to: Address)
    ensures Step(cfg, Lift(below, l), Enter(l.frame.lastOp, to)) == Ok(Lift(below, l.(world := EnterWorld(l.frame, to, l.world))))
  {
  }

  lemma {:induction false} RunEntry(cfg: Config, below: seq<Frame>, l: Local, c: Call)
    requires !Short(c.op, c.salt)
    ensures Run(cfg, Lift(below, l), EntryTrace(c, l.frame.ctx, l.frame.depth)) == Ok(Lift(below, Entry(cfg, c, l)))
  {
    hide Step;
    var s := Lift(below, l);
    var op := [Opcode(c.pc, c.op, c.salt, l.frame.ctx, l.frame.depth)];
    var caller := if c.caller.Some? then [Caller(c.caller.value)] else [];
    var enter := [Enter(c.op, c.to)];
    var l1 := ObserveLocal(l, c.pc, c.op, c.salt);
    var l2 := AfterCaller(cfg, c, l);
    var l3 := AfterEnter(cfg, c, l);
    StepOpcode(cfg, below, l, c.pc, c.op, c.salt);
    RunOne(cfg, s, op[0]);
    if c.caller.Some? {
      StepCaller(cfg, below, l1, c.caller.value);
      RunOne(cfg, Lift(below, l1), caller[0]);
    }
    assert Run(cfg, Lift(below, l1), caller) == Ok(Lift(below, l2));
    StepEnter(cfg, below, l2, c.to);
    RunOne(cfg, Lift(below, l2), enter[0]);
    assert Run(cfg, Lift(below, l2), enter) == Ok(Lift(below, l3));
    RunCommands(cfg, below, l3, Prologue(c.body));
    RunConcat(cfg, s, op, caller);
    RunConcat(cfg, s, op + caller, enter);
    RunConcat(cfg, s, op + caller + enter, Commands(Prologue(c.body)));
  }

  /** The hooks of a callee's body and its exit, on the calling frame that stands at the body's start. */
  lemma {:induction false} RunBodyAndExit(cfg: Config, below: seq<Frame>, l: Local, c: Call)
    requires !Short(c.op, c.salt)
    ensures Run(cfg, Lift(below, Entry(cfg, c, l)), BodyTrace(c.body, l.frame.depth + 1) + [Exit(l.frame.depth, c.gas)])
         == LiftResult(below, ExecSub(cfg, c, l))
    decreases c, 0
  {
    hide Step, Entry, Close;
    var e, d := Entry(cfg, c, l), l.frame.depth;
    var s, exit := Lift(below, e), [Exit(d, c.gas)];
    EntrySameFrame(cfg, c, l);
    match c.body
    case NoFrame(_) =>
      StepExitNoFrame(cfg, below, e, c.gas);
      RunOne(cfg, s, exit[0]);
      assert BodyTrace(c.body, d + 1) + exit == exit;
    case Framed(_, scope, pc, op, salt, code) =>
      var child := Child(e, c.body);
      var first, t := [Opcode(pc, op, salt, scope, d + 1)], Trace(code, scope, d + 1);
      StepFirstOpcode(cfg, below, e, c.body);
      RunOne(cfg, s, first[0]);
      RunTrace(cfg, below + [e.frame], child, code);
      RunConcat(cfg, s, first, t);
      RunConcat(cfg, s, first + t, exit);
      if !Short(op, salt) && Exec(cfg, code, child).Ok? {
        ExecSameFrame(cfg, code, child);
        var done := Exec(cfg, code, child).value;
        StepExit(cfg, below, e.frame, done, c.gas);
        RunOne(cfg, Lift(below + [e.frame], done), exit[0]);
      }
  }

  lemma {:induction false} RunAfter(
    cfg: Config, s: State, a: seq<Event>, b: seq<Event>, c: seq<Event>, s1: State, below: seq<Frame>, r: Result<Local>)
    requires Run(cfg, s, a) == Ok(s1)
    requires Run(cfg, s1, b) == LiftResult(below, r)
    ensures Run(cfg, s, a + (b + c)) == match r case Panic => Panic case Ok(l) => Run(cfg, Lift(below, l), c)
  {
    RunConcat(cfg, s, a, b + c);
    RunConcat(cfg, s1, b, c);
  }

  lemma {:induction false} RunShortSub(cfg: Config, below: seq<Frame>, l: Local, c: Call, next: Code)
    requires Short(c.op, c.salt)
    ensures Run(cfg, Lift(below, l), Trace(Sub(c, next), l.frame.ctx, l.frame.depth)) == Panic
    ensures ExecSub(cfg, c, l) == Panic
  {
    hide Step, BodyTrace;
    StepOpcode(cfg, below, l, c.pc, c.op, c.salt);
    assert Trace(Sub(c, next), l.frame.ctx, l.frame.depth)[0] == Opcode(c.pc, c.op, c.salt, l.frame.ctx, l.frame.depth);
  }

  lemma {:induction false} RunSub(cfg: Config, below: seq<Frame>, l: Local, c: Call, next: Code)
    ensures Run(cfg, Lift(below, l), Trace(Sub(c, next), l.frame.ctx, l.frame.depth))
         == match ExecSub(cfg, c, l)
            case Panic => Panic
            case Ok(l1) => Run(cfg, Lift(below, l1), Trace(next, l.frame.ctx, l.frame.depth))
    decreases c, 1
  {
    var ctx, d := l.frame.ctx, l.frame.depth;
    hide Step, EntryTrace, Entry, ExecSub, BodyTrace;
    if Short(c.op, c.salt) {
      RunShortSub(cfg, below, l, c, next);
    } else {
      RunEntry(cfg, below, l, c);
      RunBodyAndExit(cfg, below, l, c);
      RunAfter(cfg, Lift(below, l), EntryTrace(c, ctx, d), BodyTrace(c.body, d + 1) + [Exit(d, c.gas)],
               Trace(next, ctx, d), Lift(below, Entry(cfg, c, l)), below, ExecSub(cfg, c, l));
    }
  }

  /** The step machine, fed the hook calls of any call tree on top of any suspended frames, computes `Exec`. */
  lemma {:induction false} RunTrace(cfg: Config, below: seq<Frame>, l: Local, c: Code)
    ensures Run(cfg, Lift(below, l), Trace(c, l.frame.ctx, l.frame.depth)) == LiftResult(below, Exec(cfg, c, l))
    decreases c, 2
  {
    var s, t := Lift(below, l), Trace(c, l.frame.ctx, l.frame.depth);
    match c
    case Done =>
    case Plain(pc, op, salt, next) =>
      StepOpcode(cfg, below, l, pc, op, salt);
      assert t[1..] == Trace(next, l.frame.ctx, l.frame.depth);
      RunTrace(cfg, below, ObserveLocal(l, pc, op, salt), next);
    case Sub(call, next) =>
      RunSub(cfg, below, l, call, next);
      ExecSubSameFrame(cfg, call, l);
      if ExecSub(cfg, call, l).Ok? {
        RunTrace(cfg, below, ExecSub(cfg, call, l).value, next);
      }
    case Do(cheat, next) =>
      StepCommand(cfg, below, l, cheat);
      assert t[1..] == Trace(next, l.frame.ctx, l.frame.depth);
      RunTrace(cfg, below, ApplyLocal(l, cheat), next);
  }

  /** The EVM's nonce writes before a framed callee's first opcode touch nothing else. */
  lemma {:induction false} WritesKeep(l: Local, ws: seq<NonceWrite>)
    ensures ApplyAll(l, Writes(ws)).frame == l.frame
    ensures ApplyAll(l, Writes(ws)).world == l.world.(nonces := ApplyAll(l, Writes(ws)).world.nonces)
    decreases |ws|
  {
    if ws != [] {
      assert Writes(ws)[1..] == Writes(ws[1..]);
      WritesKeep(ApplyLocal(l, Writes(ws)[0]), ws[1..]);
    }
  }

  // ---------- whole transactions ----------

  /** The hook calls of a call or creation made by the Host itself, from outside of any frame. */
  function RootTrace(typ: Op, to: Address, b: Body, gas: U64): seq<Event> {
    [Enter(typ, to)] + (Commands(Prologue(b)) + (BodyTrace(b, 1) + [Exit(0, gas)]))
  }

  /** Outside of any frame commands only change the world. */
  function ApplyOutside(w: World, cs: seq<Cheat>): World
    decreases |cs|
  {
    if cs == [] then w else ApplyOutside(ApplyWorld(w, cs[0]), cs[1..])
  }

  /** The first frame after its first opcode. */
  function RootFrame(b: Body, w: World): Local
    requires b.Framed?
  {
    var w1 := GrantCheatcodes(b.scope, ApplyOutside(w, Writes(b.writes)));
    Local(ObserveOp(OpenFrame(b.scope, 1, b.pc, b.op, w1), b.pc, b.op, b.salt), w1)
  }

  lemma {:induction false} OutsideWritesKeep(w: World, ws: seq<NonceWrite>)
    ensures ApplyOutside(w, Writes(ws)) == w.(nonces := ApplyOutside(w, Writes(ws)).nonces)
    decreases |ws|
  {
    if ws != [] {
      assert Writes(ws)[1..] == Writes(ws[1..]);
      OutsideWritesKeep(ApplyWorld(w, Writes(ws)[0]), ws[1..]);
    }
  }

  lemma {:induction false} RunOutside(cfg: Config, w: World, cs: seq<Cheat>)
    ensures Run(cfg, State([], w), Commands(cs)) == Ok(State([], ApplyOutside(w, cs)))
    decreases |cs|
  {
    if cs != [] {
      assert Step(cfg, State([], w), Command(cs[0])) == Ok(State([], ApplyWorld(w, cs[0])));
      assert Commands(cs)[1..] == Commands(cs[1..]);
      RunOutside(cfg, ApplyWorld(w, cs[0]), cs[1..]);
    }
  }

  lemma {:induction false} RootEntry(cfg: Config, w: World, typ: Op, to: Address, b: Body, rest: seq<Event>)
    ensures Run(cfg, State([], w), [Enter(typ, to)] + (Commands(Prologue(b)) + rest))
         == Run(cfg, State([], ApplyOutside(w, Prologue(b))), rest)
  {
    var s, cs := State([], w), Commands(Prologue(b));
    assert Step(cfg, s, Enter(typ, to)) == Ok(s);
    hide Step;
    RunOne(cfg, s, Enter(typ, to));
    RunConcat(cfg, s, [Enter(typ, to)], cs + rest);
    RunOutside(cfg, w, Prologue(b));
    RunConcat(cfg, s, cs, rest);
  }

  lemma {:induction false} RootExit(cfg: Config, l: Local, gas: U64)
    requires l.frame.depth == 1
    ensures Step(cfg, Lift([], l), Exit(0, gas)) == Ok(State([], l.world))
  {
    var s := State([AddGas(l.frame, gas)], l.world);
    assert SetTop(Lift([], l), AddGas(l.frame, gas)) == s;
    hide CloseChild, AddGas;
    assert Pop(cfg, s) == Ok(State([], l.world));
    assert Unwind(cfg, State([], l.world), 0) == Ok(State([], l.world));
  }

  lemma {:induction false} RootBody(cfg: Config, w: World, b: Body, gas: U64)
    requires b.Framed?
    ensures Run(cfg, State([], ApplyOutside(w, Prologue(b))), BodyTrace(b, 1) + [Exit(0, gas)])
         == if Short(b.op, b.salt) then Panic
            else match Exec(cfg, b.code, RootFrame(b, w))
                 case Panic => Panic
                 case Ok(l) => Ok(State([], l.world))
  {
    var s, first := State([], ApplyOutside(w, Prologue(b))), Opcode(b.pc, b.op, b.salt, b.scope, 1);
    var t, exit, root := Trace(b.code, b.scope, 1), [Exit(0, gas)], RootFrame(b, w);
    assert Step(cfg, s, first) == if Short(b.op, b.salt) then Panic else Ok(Lift([], root));
    hide Step, Exec, RootFrame;
    assert BodyTrace(b, 1) + exit == [first] + (t + exit);
    RunOne(cfg, s, first);
    RunConcat(cfg, s, [first], t + exit);
    RunConcat(cfg, Lift([], root), t, exit);
    assert root.frame.ctx == b.scope && root.frame.depth == 1 by { RootScope(b, w); }
    RunTrace(cfg, [], root, b.code);
    if !Short(b.op, b.salt) && Exec(cfg, b.code, root).Ok? {
      ExecSameFrame(cfg, b.code, root);
      var l := Exec(cfg, b.code, root).value;
      RunOne(cfg, Lift([], l), exit[0]);
      RootExit(cfg, l, gas);
    }
  }

  lemma RootScope(b: Body, w: World)
    requires b.Framed?
    ensures RootFrame(b, w).frame.ctx == b.scope && RootFrame(b, w).frame.depth == 1
  {
  }

  /**
   A whole call or creation from outside leaves an empty stack and the world that `Exec` gives. One that
   opens no frame always panics: the exit hook then finds no frame to charge the gas to. So does one that
   starts with CREATE2 on a short stack.
   */
  lemma {:induction false} RunRoot(cfg: Config, w: World, typ: Op, to: Address, b: Body, gas: U64)
    ensures Run(cfg, State([], w), RootTrace(typ, to, b, gas))
         == if b.NoFrame? || Short(b.op, b.salt) then Panic
            else match Exec(cfg, b.code, RootFrame(b, w))
                 case Panic => Panic
                 case Ok(l) => Ok(State([], l.world))
  {
    hide Step, Exec;
    RootEntry(cfg, w, typ, to, b, BodyTrace(b, 1) + [Exit(0, gas)]);
    if b.Framed? {
      RootBody(cfg, w, b, gas);
    } else {
      FramelessExit(cfg, ApplyOutside(w, Prologue(b)), gas);
      RunOne(cfg, State([], ApplyOutside(w, Prologue(b))), Exit(0, gas));
      assert BodyTrace(b, 1) + [Exit(0, gas)] == [Exit(0, gas)];
    }
  }

  /** The exit hook indexes the top of the stack, and panics when there is none. */
  lemma FramelessExit(cfg: Config, w: World, gas: U64)
    ensures Step(cfg, State([], w), Exit(0, gas)) == Panic
  {
  }

  /** A plain transfer from outside: the two hooks are called, no opcode runs, and the Host panics. */
  lemma OutsideTransferPanics(cfg: Config, w: World, to: Address, gas: U64)
    ensures RootTrace(CALL, to, NoFrame([]), gas) == [Enter(CALL, to), Exit(0, gas)]
    ensures Run(cfg, State([], w), [Enter(CALL, to), Exit(0, gas)]) == Panic
  {
    assert RootTrace(CALL, to, NoFrame([]), gas) == [Enter(CALL, to), Exit(0, gas)];
    RunRoot(cfg, w, CALL, to, NoFrame([]), gas);
  }
}
