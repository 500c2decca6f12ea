/**
 The forge-script Host as a value-level step machine.

 A Host state is the stack of call-frames, bottom first, and the world the frames run in: the
 transaction origin, the account nonces, the broadcasts handed to the broadcast hook so far, and the
 addresses that may use cheatcodes. Each hook of the EVM is a function from state to state. A Go
 panic is the outcome `Panic`.
 */
module HostState {
  import opened Prelude

  const VM_ADDR: Address := 0x7109709ECfa91a80626fF3989D68f67F5b1DD12D
  const CONSOLE_ADDR: Address := 0x000000000000000000636F6e736F6c652e6c6f67
  const DETERMINISTIC_DEPLOYER: Address := 0x4e59b44847b379578588920cA78FbF26c0B4956C

  const JUMP_HISTORY: nat := 5

  datatype Op = CALL | CALLCODE | DELEGATECALL | STATICCALL | CREATE | CREATE2 | JUMPDEST | Other(code: nat)

  /** The parts of geth's scope context that the Host reads. `id` stands for the pointer's identity. */
  datatype Scope = Scope(
    id: nat,
    address: Address,
    caller: Address,
    value: Option<nat>,
    input: seq<Byte>,
    code: seq<Byte>,
    isDeployment: bool)

  datatype Prank = Prank(
    sender: Option<Address>,
    origin: Option<Address>,
    prevOrigin: Address,
    repeat: bool,
    broadcast: bool)

  datatype Frame = Frame(
    depth: int,
    lastOp: Op,
    lastPC: nat,
    lastCreate2Salt: nat,
    lastJumps: seq<nat>,
    ctx: Scope,
    prank: Option<Prank>,
    gasUsed: U64,
    callerNonce: U64)

  datatype BroadcastType = BroadcastCall | BroadcastCreate | BroadcastCreate2

  datatype Broadcast = Broadcast(
    from: Address,
    to: Address,
    input: seq<Byte>,
    value: nat,
    salt: nat,
    gasUsed: U64,
    kind: BroadcastType,
    nonce: U64)

  datatype World = World(
    origin: Address,
    nonces: map<Address, U64>,
    broadcasts: seq<Broadcast>,
    allowed: set<Address>)

  datatype State = State(stack: seq<Frame>, world: World)

  /** What the Host is configured with, and the hash functions it calls. */
  datatype Config = Config(
    useCreate2Deployer: bool,
    createAddress: (Address, U64) -> Address,
    createAddress2: (Address, nat, nat) -> Address,
    keccak256: seq<Byte> -> nat)

  datatype Result<+T> = Ok(value: T) | Panic

  datatype PrankError =
    | ActiveBroadcast
    | ActivePrank
    | NoBroadcastToStop

  datatype CallerMode =
    | CallerModeNone
    | CallerModeBroadcast
    | CallerModeRecurrentBroadcast
    | CallerModePrank
    | CallerModeRecurrentPrank

  // ---------- one frame at a time ----------

  type Nonces = map<Address, U64>

  function NonceOf(m: Nonces, a: Address): U64 {
    if a in m then m[a] else 0
  }

  function Nonce(w: World, a: Address): U64 {
    NonceOf(w.nonces, a)
  }

  function SetNonce(w: World, a: Address, n: U64): World {
    w.(nonces := w.nonces[a := n])
  }

  /** The last `n` elements of `s`, or all of it when it is shorter. */
  function LastN(s: seq<nat>, n: nat): seq<nat> {
    if |s| <= n then s else s[|s| - n..]
  }

  /** The caller that the EVM is told to use for a sub-call made by `f`. */
  function CallerOverride(cfg: Config, f: Frame, caller: Address): Address {
    if f.prank.None? || caller == VM_ADDR then caller
    else if f.prank.value.broadcast && f.lastOp == CREATE2 && cfg.useCreate2Deployer then DETERMINISTIC_DEPLOYER
    else if f.prank.value.sender.Some? then f.prank.value.sender.value
    else caller
  }

  /** Whether asking for the caller override also overrides the transaction origin. */
  predicate AppliesOrigin(cfg: Config, f: Frame, caller: Address) {
    && f.prank.Some?
    && caller != VM_ADDR
    && !(f.prank.value.broadcast && f.lastOp == CREATE2 && cfg.useCreate2Deployer)
    && f.prank.value.sender.None?
    && f.prank.value.origin.Some?
  }

  function CallerOrigin(cfg: Config, f: Frame, caller: Address, w: World): World {
    if AppliesOrigin(cfg, f, caller) then w.(origin := f.prank.value.origin.value) else w
  }

  /** Whether entering a sub-call of kind `f.lastOp` to `to` makes it look like a transaction. */
  predicate BumpsNonce(f: Frame, to: Address) {
    && f.prank.Some?
    && f.prank.value.broadcast
    && to != VM_ADDR
    && to != CONSOLE_ADDR
    && (f.lastOp == CALL || f.lastOp == CREATE2)
  }

  function BroadcastSender(f: Frame): Address {
    if f.prank.Some? && f.prank.value.sender.Some? then f.prank.value.sender.value else f.ctx.address
  }

  function EnterWorld(f: Frame, to: Address, w: World): World {
    if BumpsNonce(f, to)
    then SetNonce(w, BroadcastSender(f), (Nonce(w, BroadcastSender(f)) + 1) % TWO_64)
    else w
  }

  function GrantCheatcodes(scope: Scope, w: World): World {
    if scope.isDeployment && scope.address !in w.allowed && scope.caller in w.allowed
    then w.(allowed := w.allowed + {scope.address})
    else w
  }

  function OpenFrame(scope: Scope, depth: int, pc: nat, op: Op, w: World): Frame {
    Frame(depth, op, pc, 0, [], scope, None, 0, Nonce(w, scope.caller))
  }

  /**
   The hook looks for a salt that is not there. The EVM also reports opcodes that it rejects for want of
   operands, so CREATE2 may be reported on a stack of fewer than four words.
   */
  predicate Short(op: Op, salt: Option<nat>) {
    op == CREATE2 && salt.None?
  }

  /** What one reported opcode leaves behind in its frame; `salt` is the fourth word of the stack, if any. */
  function ObserveOp(f: Frame, pc: nat, op: Op, salt: Option<nat>): Frame {
    f.(lastJumps := if op == JUMPDEST then LastN(f.lastJumps + [f.lastPC], JUMP_HISTORY) else f.lastJumps,
       lastOp := op,
       lastPC := pc,
       lastCreate2Salt := if op == CREATE2 && salt.Some? then salt.value else f.lastCreate2Salt)
  }

  function BroadcastInput(s: Scope): seq<Byte> {
    if s.isDeployment then s.code else s.input
  }

  /**
   Sent as a transaction, `b` would repeat what the frame ran: the same sender, callee and value, and the
   same call data, or the same init code when it deployed a contract.
   */
  predicate Repeats(b: Broadcast, child: Frame) {
    && b.from == child.ctx.caller
    && b.to == child.ctx.address
    && b.gasUsed == child.gasUsed
    && (child.ctx.value == Some(b.value) || (child.ctx.value == None && b.value == 0))
    && (child.ctx.isDeployment ==> b.input == child.ctx.code)
    && (!child.ctx.isDeployment ==> b.input == child.ctx.input)
  }

  /**
   The transaction recorded for a finished child frame; it panics on any operation but the three below.
   The address of a recorded deployment can be recomputed from the record alone.
   */
  function NewBroadcast(cfg: Config, parent: Frame, child: Frame): (r: Result<Broadcast>)
    ensures r.Ok? ==> Repeats(r.value, child)
    ensures r.Ok? && r.value.kind == BroadcastCreate ==> cfg.createAddress(r.value.from, r.value.nonce) == r.value.to
    ensures r.Ok? && r.value.kind == BroadcastCreate2 ==>
              cfg.createAddress2(r.value.from, r.value.salt, cfg.keccak256(r.value.input)) == r.value.to
  {
    var s := child.ctx;
    var value := if s.value.Some? then s.value.value else 0;
    var nonce := (child.callerNonce - 1) % TWO_64;
    match parent.lastOp
    case CREATE =>
      if cfg.createAddress(s.caller, nonce) != s.address then Panic
      else Ok(Broadcast(s.caller, s.address, BroadcastInput(s), value, 0, child.gasUsed, BroadcastCreate, nonce))
    case CREATE2 =>
      if cfg.createAddress2(s.caller, parent.lastCreate2Salt, cfg.keccak256(BroadcastInput(s))) != s.address then Panic
      else Ok(Broadcast(s.caller, s.address, BroadcastInput(s), value, parent.lastCreate2Salt, child.gasUsed,
                        BroadcastCreate2, 0))
    case CALL =>
      Ok(Broadcast(s.caller, s.address, BroadcastInput(s), value, 0, child.gasUsed, BroadcastCall, nonce))
    case _ => Panic
  }

  /** A finished child of `parent` is handed to the broadcast hook. */
  predicate Broadcasts(parent: Frame) {
    parent.prank.Some? && parent.prank.value.broadcast && parent.lastOp != DELEGATECALL && parent.lastOp != STATICCALL
  }

  /** The parent frame and the world after `child` is popped from right above `parent`. */
  function CloseChild(cfg: Config, parent: Frame, child: Frame, w: World): Result<(Frame, World)> {
    if parent.prank.None? then Ok((parent, w))
    else if Broadcasts(parent) && NewBroadcast(cfg, parent, child).Panic? then Panic
    else
      var w1 :=
        if Broadcasts(parent)
        then w.(broadcasts := w.broadcasts + [NewBroadcast(cfg, parent, child).value])
        else w;
      var w2 := if parent.prank.value.origin.Some? then w1.(origin := parent.prank.value.prevOrigin) else w1;
      Ok((if parent.prank.value.repeat then parent else parent.(prank := None), w2))
  }

  function AddGas(f: Frame, gas: U64): Frame {
    f.(gasUsed := (f.gasUsed + gas) % TWO_64)
  }

  /** Why a request to start a prank or broadcast is refused in frame `f`, if it is. */
  function StartPrankError(f: Frame, broadcast: bool): Option<PrankError> {
    if f.prank.None? || f.prank.value.broadcast == broadcast then None
    else if f.prank.value.broadcast then Some(ActiveBroadcast)
    else Some(ActivePrank)
  }

  function StartPrank(
    f: Frame, w: World, sender: Option<Address>, origin: Option<Address>, repeat: bool, broadcast: bool): Frame
  {
    if StartPrankError(f, broadcast).Some? then f
    else f.(prank := Some(Prank(sender, origin, w.origin, repeat, broadcast)))
  }

  function StopPrankError(f: Frame, broadcast: bool): Option<PrankError> {
    if broadcast && (f.prank.None? || !f.prank.value.broadcast) then Some(NoBroadcastToStop) else None
  }

  function StopPrank(f: Frame, broadcast: bool): Frame {
    if f.prank.Some? && f.prank.value.broadcast == broadcast then f.(prank := None) else f
  }

  function FrameMode(f: Frame): CallerMode {
    match f.prank
    case None => CallerModeNone
    case Some(p) =>
      if p.broadcast then (if p.repeat then CallerModeRecurrentBroadcast else CallerModeBroadcast)
      else (if p.repeat then CallerModeRecurrentPrank else CallerModePrank)
  }

  predicate InBroadcast(m: CallerMode) {
    m in {CallerModeBroadcast, CallerModeRecurrentBroadcast}
  }

  predicate InPrank(m: CallerMode) {
    m in {CallerModePrank, CallerModeRecurrentPrank}
  }

  predicate Recurrent(m: CallerMode) {
    m in {CallerModeRecurrentBroadcast, CallerModeRecurrentPrank}
  }

  /**
   What mode `m` tells a script that runs in `f`: which of the two kinds of prank it may not start, whether
   there is a broadcast to stop, and whether the prank outlives the next child frame.
   */
  ghost predicate ModeMeans(cfg: Config, f: Frame, m: CallerMode) {
    && (InPrank(m) <==> StartPrankError(f, true) == Some(ActivePrank))
    && (InBroadcast(m) <==> StartPrankError(f, false) == Some(ActiveBroadcast))
    && (InBroadcast(m) <==> StopPrankError(f, true) == None)
    && (forall child, w :: CloseChild(cfg, f, child, w).Ok? ==>
          CloseChild(cfg, f, child, w).value.0.prank == if Recurrent(m) then f.prank else None)
  }

  // ---------- the hooks, over the whole stack ----------

  function Top(s: State): Frame
    requires s.stack != []
  {
    s.stack[|s.stack| - 1]
  }

  /** The top frame is popped, after its parent has been settled. */
  function Pop(cfg: Config, s: State): (r: Result<State>)
    requires s.stack != []
    ensures r.Ok? ==> |r.value.stack| == |s.stack| - 1
  {
    var n := |s.stack|;
    if n == 1 then Ok(State([], s.world))
    else
      match CloseChild(cfg, s.stack[n - 2], s.stack[n - 1], s.world)
      case Panic => Panic
      case Ok((parent, w)) => Ok(State(s.stack[..n - 2] + [parent], w))
  }

  /** Frames are popped until the top one is no deeper than `depth`. */
  function Unwind(cfg: Config, s: State, depth: int): Result<State>
    decreases |s.stack|
  {
    if s.stack == [] || Top(s).depth <= depth then Ok(s)
    else
      match Pop(cfg, s)
      case Panic => Panic
      case Ok(t) => Unwind(cfg, t, depth)
  }

  function SetTop(s: State, f: Frame): State
    requires s.stack != []
  {
    s.(stack := s.stack[..|s.stack| - 1] + [f])
  }

  function HandleCaller(cfg: Config, s: State, caller: Address): State {
    if s.stack == [] then s else s.(world := CallerOrigin(cfg, Top(s), caller, s.world))
  }

  function OnEnter(s: State, typ: Op, to: Address): Result<State> {
    if s.stack == [] || Top(s).prank.None? then Ok(s)
    else if Top(s).lastOp != typ then Panic
    else Ok(s.(world := EnterWorld(Top(s), to, s.world)))
  }

  function OnExit(cfg: Config, s: State, depth: int, gas: U64): Result<State> {
    if s.stack == [] then Panic else Unwind(cfg, SetTop(s, AddGas(Top(s), gas)), depth)
  }

  /** A frame is opened by the first opcode at a new depth. */
  function PushIfDeeper(s: State, pc: nat, op: Op, scope: Scope, depth: int): (r: State)
    ensures r.stack != []
  {
    if s.stack == [] || Top(s).depth < depth
    then s.(stack := s.stack + [OpenFrame(scope, depth, pc, op, s.world)])
    else s
  }

  /** The opcode hook once the stack has been unwound to `depth`. */
  function Observe(s: State, pc: nat, op: Op, salt: Option<nat>, scope: Scope, depth: int): Result<State> {
    var pushed := PushIfDeeper(s.(world := GrantCheatcodes(scope, s.world)), pc, op, scope, depth);
    if Top(pushed).ctx != scope || Short(op, salt) then Panic
    else Ok(SetTop(pushed, ObserveOp(Top(pushed), pc, op, salt)))
  }

  function OnOpcode(cfg: Config, s: State, pc: nat, op: Op, salt: Option<nat>, scope: Scope, depth: int): Result<State> {
    match Unwind(cfg, s, depth)
    case Panic => Panic
    case Ok(u) => Observe(u, pc, op, salt, scope, depth)
  }

  // ---------- runs ----------

  /** Everything that is not a tracing hook: cheatcodes, and state writes by the EVM or the script's owner. */
  datatype Cheat =
    | StartPrankCmd(sender: Option<Address>, origin: Option<Address>, repeat: bool, broadcast: bool)
    | StopPrankCmd(broadcast: bool)
    | WriteNonce(address: Address, nonce: U64)
    | WriteOrigin(address: Address)
    | AllowCheatcodes(address: Address)

  datatype Event =
    | Opcode(pc: nat, op: Op, salt: Option<nat>, scope: Scope, depth: int)
    | Caller(caller: Address)
    | Enter(typ: Op, to: Address)
    | Exit(depth: int, gas: U64)
    | Command(cheat: Cheat)

  function ApplyFrame(f: Frame, w: World, c: Cheat): Frame {
    match c
    case StartPrankCmd(sender, origin, repeat, broadcast) => StartPrank(f, w, sender, origin, repeat, broadcast)
    case StopPrankCmd(broadcast) => StopPrank(f, broadcast)
    case WriteNonce(_, _) => f
    case WriteOrigin(_) => f
    case AllowCheatcodes(_) => f
  }

  function ApplyWorld(w: World, c: Cheat): World {
    match c
    case WriteNonce(a, n) => SetNonce(w, a, n)
    case WriteOrigin(a) => w.(origin := a)
    case AllowCheatcodes(a) => w.(allowed := w.allowed + {a})
    case StartPrankCmd(_, _, _, _) => w
    case StopPrankCmd(_) => w
  }

  function Apply(s: State, c: Cheat): State {
    if s.stack == [] then s.(world := ApplyWorld(s.world, c))
    else SetTop(s, ApplyFrame(Top(s), s.world, c)).(world := ApplyWorld(s.world, c))
  }

  function Step(cfg: Config, s: State, e: Event): Result<State> {
    match e
    case Opcode(pc, op, salt, scope, depth) => OnOpcode(cfg, s, pc, op, salt, scope, depth)
    case Caller(caller) => Ok(HandleCaller(cfg, s, caller))
    case Enter(typ, to) => OnEnter(s, typ, to)
    case Exit(depth, gas) => OnExit(cfg, s, depth, gas)
    case Command(c) => Ok(Apply(s, c))
  }

  function Run(cfg: Config, s: State, es: seq<Event>): Result<State>
    decreases |es|
  {
    if es == [] then Ok(s)
    else
      match Step(cfg, s, es[0])
      case Panic => Panic
      case Ok(s1) => Run(cfg, s1, es[1..])
  }

  lemma {:induction false} RunConcat(cfg: Config, s: State, a: seq<Event>, b: seq<Event>)
    ensures Run(cfg, s, a + b) == match Run(cfg, s, a) case Panic => Panic case Ok(s1) => Run(cfg, s1, b)
    decreases |a|
  {
    if a == [] {
      assert a + b == b;
    } else {
      assert (a + b)[1..] == a[1..] + b;
      if Step(cfg, s, a[0]).Ok? {
        RunConcat(cfg, Step(cfg, s, a[0]).value, a[1..], b);
      }
    }
  }
}
