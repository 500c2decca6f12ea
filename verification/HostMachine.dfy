/**
 The Host as the object it is: a stack of mutable call-frames that the hooks update in place. Every
 method is proved against the step of `HostState` that it carries out. A method that returns
 `ok == false` stands for a Go panic.
 */
module HostMachine {
  import opened Prelude
  import opened HostState

  class CallFrame {
    const depth: int
    const ctx: Scope
    const callerNonce: U64
    var lastOp: Op
    var lastPC: nat
    var lastCreate2Salt: nat
    var lastJumps: seq<nat>
    var prank: Option<Prank>
    var gasUsed: U64

    constructor (depth: int, op: Op, pc: nat, ctx: Scope, callerNonce: U64)
      ensures View() == Frame(depth, op, pc, 0, [], ctx, None, 0, callerNonce)
    {
      this.depth, this.ctx, this.callerNonce := depth, ctx, callerNonce;
      lastOp, lastPC, lastCreate2Salt, lastJumps, prank, gasUsed := op, pc, 0, [], None, 0;
    }

    function View(): Frame
      reads this
    {
      Frame(depth, lastOp, lastPC, lastCreate2Salt, lastJumps, ctx, prank, gasUsed, callerNonce)
    }
  }

  /** The jump history after one more jump: append, then shift the tail to the front in place and truncate. */
  method RememberJump(jumps: seq<nat>, pc: nat) returns (r: seq<nat>)
    ensures r == LastN(jumps + [pc], JUMP_HISTORY)
  {
    var all := jumps + [pc];
    var buf := new nat[|all|](i requires 0 <= i < |all| => all[i]);
    assert buf[..] == all;
    if buf.Length <= JUMP_HISTORY {
      return buf[..];
    }
    var shift := buf.Length - JUMP_HISTORY;
    for i := 0 to JUMP_HISTORY
      invariant forall k :: 0 <= k < i ==> buf[k] == all[shift + k]
      invariant forall k :: i <= k < buf.Length ==> buf[k] == all[k]
    {
      buf[i] := buf[shift + i];
    }
    r := buf[..JUMP_HISTORY];
  }

  class Host {
    const cfg: Config
    var callStack: seq<CallFrame>
    var origin: Address
    var nonces: Nonces
    var broadcasts: seq<Broadcast>
    var allowed: set<Address>

    constructor (cfg: Config, origin: Address)
      ensures Valid() && fresh(callStack) && this.cfg == cfg
      ensures View() == State([], World(origin, map[], [], {}))
    {
      this.cfg, this.origin := cfg, origin;
      callStack, nonces, broadcasts, allowed := [], map[], [], {};
    }

    /** No frame object occurs twice on the stack. */
    ghost predicate Valid()
      reads this
    {
      forall i, j :: 0 <= i < j < |callStack| ==> callStack[i] != callStack[j]
    }

    ghost function Frames(): (fs: seq<Frame>)
      reads this, callStack
      ensures |fs| == |callStack|
    {
      seq(|callStack|, i requires 0 <= i < |callStack| reads this, callStack => callStack[i].View())
    }

    ghost function GetWorld(): World
      reads this
    {
      World(origin, nonces, broadcasts, allowed)
    }

    ghost function View(): State
      reads this, callStack
    {
      State(Frames(), GetWorld())
    }

    method HandleCaller(caller: Address) returns (r: Address)
      requires Valid()
      modifies this
      ensures Valid() && callStack == old(callStack)
      ensures View() == HostState.HandleCaller(cfg, old(View()), caller)
      ensures r == if callStack == [] then caller else CallerOverride(cfg, Top(old(View())), caller)
    {
      if |callStack| > 0 {
        var parent := callStack[|callStack| - 1];
        assert parent.View() == Top(View());
        if parent.prank.Some? && caller != VM_ADDR {
          if parent.prank.value.broadcast && parent.lastOp == CREATE2 && cfg.useCreate2Deployer {
            return DETERMINISTIC_DEPLOYER;
          }
          if parent.prank.value.sender.Some? {
            return parent.prank.value.sender.value;
          }
          if parent.prank.value.origin.Some? {
            origin := parent.prank.value.origin.value;
          }
        }
      }
      return caller;
    }

    method StartPrank(msgSender: Option<Address>, txOrigin: Option<Address>, repeat: bool, broadcast: bool)
      returns (err: Option<PrankError>)
      requires Valid()
      modifies callStack
      ensures Valid()
      ensures View() == Apply(old(View()), StartPrankCmd(msgSender, txOrigin, repeat, broadcast))
      ensures err == if callStack == [] then None else StartPrankError(Top(old(View())), broadcast)
    {
      if |callStack| == 0 {
        return None;
      }
      ghost var before := View();
      var cf := callStack[|callStack| - 1];
      assert cf.View() == Top(before);
      if cf.prank.Some? {
        if cf.prank.value.broadcast && !broadcast {
          assert SetTop(before, Top(before)) == before;
          return Some(ActiveBroadcast);
        }
        if !cf.prank.value.broadcast && broadcast {
          assert SetTop(before, Top(before)) == before;
          return Some(ActivePrank);
        }
      }
      cf.prank := Some(Prank(msgSender, txOrigin, origin, repeat, broadcast));
      return None;
    }

    method StopPrank(broadcast: bool) returns (err: Option<PrankError>)
      requires Valid()
      modifies callStack
      ensures Valid()
      ensures View() == Apply(old(View()), StopPrankCmd(broadcast))
      ensures err == if callStack == [] then None else StopPrankError(Top(old(View())), broadcast)
    {
      if |callStack| == 0 {
        return None;
      }
      ghost var before := View();
      var cf := callStack[|callStack| - 1];
      assert cf.View() == Top(before);
      assert SetTop(before, Top(before)) == before;
      if cf.prank.None? {
        return if broadcast then Some(NoBroadcastToStop) else None;
      }
      if cf.prank.value.broadcast && !broadcast {
        return None;
      }
      if !cf.prank.value.broadcast && broadcast {
        return Some(NoBroadcastToStop);
      }
      cf.prank := None;
      return None;
    }

    method Mode() returns (mode: CallerMode)
      ensures callStack == [] ==> mode == CallerModeNone
      ensures callStack != [] ==> mode == FrameMode(Top(View())) && ModeMeans(cfg, Top(View()), mode)
    {
      if |callStack| == 0 {
        return CallerModeNone;
      }
      var cf := callStack[|callStack| - 1];
      assert cf.View() == Top(View());
      hide NewBroadcast;
      if cf.prank.Some? {
        if cf.prank.value.broadcast {
          if cf.prank.value.repeat {
            return CallerModeRecurrentBroadcast;
          }
          return CallerModeBroadcast;
        }
        if cf.prank.value.repeat {
          return CallerModeRecurrentPrank;
        }
        return CallerModePrank;
      }
      return CallerModeNone;
    }

    method OnEnter(typ: Op, to: Address) returns (ok: bool)
      requires Valid()
      modifies this
      ensures Valid() && callStack == old(callStack)
      ensures ok == HostState.OnEnter(old(View()), typ, to).Ok?
      ensures ok ==> View() == HostState.OnEnter(old(View()), typ, to).value
    {
      if |callStack| == 0 {
        return true;
      }
      var parent := callStack[|callStack| - 1];
      assert parent.View() == Top(View());
      if parent.prank.None? {
        return true;
      }
      if parent.lastOp != typ {
        return false;
      }
      if !parent.prank.value.broadcast {
        return true;
      }
      if to == VM_ADDR || to == CONSOLE_ADDR {
        return true;
      }
      if parent.lastOp == CALL || parent.lastOp == CREATE2 {
        var sender := parent.ctx.address;
        if parent.prank.value.sender.Some? {
          sender := parent.prank.value.sender.value;
        }
        nonces := nonces[sender := (NonceOf(nonces, sender) + 1) % TWO_64];
      }
      return true;
    }

    /** The part of an unwinding step that concerns the parent of the frame about to be popped. */
    method CloseTop() returns (ok: bool)
      requires Valid() && |callStack| > 1
      modifies this, callStack[|callStack| - 2]
      ensures Valid() && callStack == old(callStack)
      ensures var n, s := |callStack|, old(View());
              var r := CloseChild(cfg, s.stack[n - 2], s.stack[n - 1], s.world);
              && ok == r.Ok?
              && (ok ==> View() == State(s.stack[..n - 2] + [r.value.0, s.stack[n - 1]], r.value.1))
    {
      hide NewBroadcast, Repeats;
      var parent, current := callStack[|callStack| - 2], callStack[|callStack| - 1];
      ghost var s := View();
      assert parent.View() == s.stack[|s.stack| - 2] && current.View() == s.stack[|s.stack| - 1];
      if parent.prank.Some? {
        if parent.prank.value.broadcast && parent.lastOp != DELEGATECALL && parent.lastOp != STATICCALL {
          var bcast := NewBroadcast(cfg, parent.View(), current.View());
          if bcast.Panic? {
            return false;
          }
          broadcasts := broadcasts + [bcast.value];
        }
        if parent.prank.value.origin.Some? {
          origin := parent.prank.value.prevOrigin;
        }
        if !parent.prank.value.repeat {
          parent.prank := None;
        }
      }
      return true;
    }

    method PopTop() returns (ok: bool)
      requires Valid() && |callStack| > 0
      modifies this, callStack
      ensures Valid() && callStack == old(callStack)[..if ok then |old(callStack)| - 1 else |old(callStack)|]
      ensures ok == Pop(cfg, old(View())).Ok?
      ensures ok ==> View() == Pop(cfg, old(View())).value
    {
      hide CloseChild;
      ghost var s, n := View(), |callStack|;
      if |callStack| > 1 {
        ok := CloseTop();
        if !ok {
          return;
        }
      }
      ghost var closed := View();
      callStack := callStack[..|callStack| - 1];
      assert View() == State(closed.stack[..n - 1], closed.world);
      assert n > 1 ==> closed.stack[..n - 1] == s.stack[..n - 2] + [closed.stack[n - 2]];
      ok := true;
    }

    method UnwindCallstack(depth: int) returns (ok: bool)
      requires Valid()
      modifies this, callStack
      ensures Valid() && callStack <= old(callStack)
      ensures ok == Unwind(cfg, old(View()), depth).Ok?
      ensures ok ==> View() == Unwind(cfg, old(View()), depth).value
    {
      hide Pop;
      while |callStack| > 0 && callStack[|callStack| - 1].depth > depth
        invariant Valid() && callStack <= old(callStack)
        invariant Unwind(cfg, View(), depth) == Unwind(cfg, old(View()), depth)
        decreases |callStack|
      {
        assert callStack[|callStack| - 1].View() == Top(View());
        ok := PopTop();
        if !ok {
          return;
        }
      }
      assert |callStack| > 0 ==> callStack[|callStack| - 1].View() == Top(View());
      ok := true;
    }

    method OnExit(depth: int, gasUsed: U64) returns (ok: bool)
      requires Valid()
      modifies this, callStack
      ensures Valid() && callStack <= old(callStack)
      ensures ok == HostState.OnExit(cfg, old(View()), depth, gasUsed).Ok?
      ensures ok ==> View() == HostState.OnExit(cfg, old(View()), depth, gasUsed).value
    {
      if |callStack| == 0 {
        return false;
      }
      var top := callStack[|callStack| - 1];
      assert top.View() == Top(View());
      top.gasUsed := (top.gasUsed + gasUsed) % TWO_64;
      assert View() == SetTop(old(View()), AddGas(Top(old(View())), gasUsed));
      ok := UnwindCallstack(depth);
    }

    /** A contract created by an account with cheatcode access gets access too. */
    method GrantToDeployment(scope: Scope)
      requires Valid()
      modifies this
      ensures Valid() && callStack == old(callStack)
      ensures View() == old(View()).(world := GrantCheatcodes(scope, old(View()).world))
    {
      if scope.isDeployment {
        if scope.address !in allowed && scope.caller in allowed {
          allowed := allowed + {scope.address};
        }
      }
    }

    /** Opens a frame when the reported depth is a new one. */
    method PushIfDeeper(pc: nat, op: Op, scope: Scope, depth: int)
      requires Valid()
      modifies this
      ensures Valid() && callStack != []
      ensures forall f :: f in callStack ==> f in old(callStack) || fresh(f)
      ensures View() == HostState.PushIfDeeper(old(View()), pc, op, scope, depth)
    {
      ghost var s := View();
      assert |callStack| > 0 ==> callStack[|callStack| - 1].View() == Top(s);
      if |callStack| == 0 || callStack[|callStack| - 1].depth < depth {
        var frame := new CallFrame(depth, op, pc, scope, NonceOf(nonces, scope.caller));
        callStack := callStack + [frame];
        assert Frames() == s.stack + [frame.View()];
      }
    }

    /** Updates the top frame for one executed opcode. */
    method ObserveTop(pc: nat, op: Op, salt: Option<nat>) returns (ok: bool)
      requires Valid() && callStack != []
      modifies callStack[|callStack| - 1]
      ensures Valid()
      ensures ok == !Short(op, salt)
      ensures ok ==> View() == SetTop(old(View()), ObserveOp(Top(old(View())), pc, op, salt))
    {
      var cf := callStack[|callStack| - 1];
      assert cf.View() == Top(View());
      if op == JUMPDEST {
        cf.lastJumps := RememberJump(cf.lastJumps, cf.lastPC);
      }
      cf.lastOp := op;
      cf.lastPC := pc;
      if cf.lastOp == CREATE2 {
        if salt.None? {
          return false;
        }
        cf.lastCreate2Salt := salt.value;
      }
      assert cf.View() == ObserveOp(Top(old(View())), pc, op, salt);
      return true;
    }

    /** The opcode hook after unwinding. */
    method ObserveOpcode(pc: nat, op: Op, salt: Option<nat>, scope: Scope, depth: int) returns (ok: bool)
      requires Valid()
      modifies this, callStack
      ensures Valid()
      ensures forall f :: f in callStack ==> f in old(callStack) || fresh(f)
      ensures ok == Observe(old(View()), pc, op, salt, scope, depth).Ok?
      ensures ok ==> View() == Observe(old(View()), pc, op, salt, scope, depth).value
    {
      hide ObserveOp, HostState.PushIfDeeper, GrantCheatcodes, SetTop;
      GrantToDeployment(scope);
      PushIfDeeper(pc, op, scope, depth);
      var top := callStack[|callStack| - 1];
      assert top in callStack;
      assert top.View() == Top(View());
      if top.ctx != scope {
        return false;
      }
      ok := ObserveTop(pc, op, salt);
    }

    method OnOpcode(pc: nat, op: Op, salt: Option<nat>, scope: Scope, depth: int) returns (ok: bool)
      requires Valid()
      modifies this, callStack
      ensures Valid()
      ensures forall f :: f in callStack ==> f in old(callStack) || fresh(f)
      ensures ok == HostState.OnOpcode(cfg, old(View()), pc, op, salt, scope, depth).Ok?
      ensures ok ==> View() == HostState.OnOpcode(cfg, old(View()), pc, op, salt, scope, depth).value
    {
      ok := UnwindCallstack(depth);
      if !ok {
        return;
      }
      ok := ObserveOpcode(pc, op, salt, scope, depth);
    }

    // ---------- everything together ----------

    method AllowCheatcodes(addr: Address)
      requires Valid()
      modifies this
      ensures Valid() && callStack == old(callStack)
      ensures View() == Apply(old(View()), HostState.AllowCheatcodes(addr))
    {
      ghost var before := View();
      assert before.stack != [] ==> SetTop(before, Top(before)) == before;
      allowed := allowed + {addr};
    }

    method SetNonce(addr: Address, nonce: U64)
      requires Valid()
      modifies this
      ensures Valid() && callStack == old(callStack)
      ensures View() == Apply(old(View()), WriteNonce(addr, nonce))
    {
      ghost var before := View();
      assert before.stack != [] ==> SetTop(before, Top(before)) == before;
      nonces := nonces[addr := nonce];
    }

    method SetTxOrigin(addr: Address)
      requires Valid()
      modifies this
      ensures Valid() && callStack == old(callStack)
      ensures View() == Apply(old(View()), WriteOrigin(addr))
    {
      ghost var before := View();
      assert before.stack != [] ==> SetTop(before, Top(before)) == before;
      origin := addr;
    }

    /** One event reaches the Host: the objects end up as the step machine says. */
    method Handle(e: Event) returns (ok: bool)
      requires Valid()
      modifies this, callStack
      ensures Valid()
      ensures forall f :: f in callStack ==> f in old(callStack) || fresh(f)
      ensures ok == Step(cfg, old(View()), e).Ok?
      ensures ok ==> View() == Step(cfg, old(View()), e).value
    {
      hide HostState.OnOpcode, HostState.OnExit, HostState.OnEnter, HostState.HandleCaller, Apply;
      ok := true;
      match e
      case Opcode(pc, op, salt, scope, depth) => ok := OnOpcode(pc, op, salt, scope, depth);
      case Caller(caller) => var _ := HandleCaller(caller);
      case Enter(typ, to) => ok := OnEnter(typ, to);
      case Exit(depth, gas) => ok := OnExit(depth, gas);
      case Command(StartPrankCmd(sender, txOrigin, repeat, broadcast)) =>
        var _ := StartPrank(sender, txOrigin, repeat, broadcast);
      case Command(StopPrankCmd(broadcast)) => var _ := StopPrank(broadcast);
      case Command(WriteNonce(a, n)) => SetNonce(a, n);
      case Command(WriteOrigin(a)) => SetTxOrigin(a);
      case Command(AllowCheatcodes(a)) => this.AllowCheatcodes(a);
    }

    /** A whole run of events: what is proved about runs of the step machine holds of the objects. */
    method HandleAll(es: seq<Event>) returns (ok: bool)
      requires Valid()
      modifies this, callStack
      ensures Valid()
      ensures ok == Run(cfg, old(View()), es).Ok?
      ensures ok ==> View() == Run(cfg, old(View()), es).value
    {
      hide Step;
      for i := 0 to |es|
        invariant Valid()
        invariant forall f :: f in callStack ==> f in old(callStack) || fresh(f)
        invariant Run(cfg, View(), es[i..]) == Run(cfg, old(View()), es)
      {
        assert es[i..][1..] == es[i + 1..];
        assert forall k :: 0 <= k < |callStack| ==> callStack[k] in callStack;
        ok := Handle(es[i]);
        if !ok {
          return;
        }
      }
      ok := true;
    }
  }
}
