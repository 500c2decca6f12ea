/**
 What every sequence of hook calls, well nested or not, keeps true of the frame stack, of a frame's
 jump history, and of the set of addresses with cheatcode access.
 */
module HostStack {
  import opened Prelude
  import opened HostState
  import opened HostTrace

  // ---------- depths ----------

  ghost predicate Ascending(s: State) {
    forall i, j :: 0 <= i < j < |s.stack| ==> s.stack[i].depth < s.stack[j].depth
  }

  /** What unwinding to `depth` leaves of `s`: a prefix of its frames, of which only the last may differ. */
  ghost predicate Unwound(s: State, t: State, depth: int) {
    && |t.stack| <= |s.stack|
    && (forall i :: 0 <= i < |t.stack| ==> t.stack[i].depth == s.stack[i].depth <= depth)
    && (forall i :: 0 <= i < |t.stack| - 1 ==> t.stack[i] == s.stack[i])
    && (forall i :: |t.stack| <= i < |s.stack| ==> s.stack[i].depth > depth)
    && (|t.stack| == |s.stack| ==> t == s)
  }

  lemma {:induction false} UnwindShape(cfg: Config, s: State, depth: int)
    requires Ascending(s) && Unwind(cfg, s, depth).Ok?
    ensures Unwound(s, Unwind(cfg, s, depth).value, depth)
    decreases |s.stack|
  {
    var n := |s.stack|;
    if n >= 2 && s.stack[n - 1].depth > depth {
      hide CloseChild;
      CloseKeepsDepth(cfg, s.stack[n - 2], s.stack[n - 1], s.world);
      var (f, w) := CloseChild(cfg, s.stack[n - 2], s.stack[n - 1], s.world).value;
      var s1 := State(s.stack[..n - 2] + [f], w);
      assert forall i :: 0 <= i < n - 1 ==> s.stack[i].depth == s1.stack[i].depth;
      UnwindShape(cfg, s1, depth);
    }
  }

  lemma CloseKeepsDepth(cfg: Config, parent: Frame, child: Frame, w: World)
    ensures CloseChild(cfg, parent, child, w).Ok? ==> CloseChild(cfg, parent, child, w).value.0.depth == parent.depth
  {
  }

  lemma ObserveShape(u: State, pc: nat, op: Op, salt: Option<nat>, scope: Scope, depth: int)
    requires forall i :: 0 <= i < |u.stack| ==> u.stack[i].depth <= depth
    requires Ascending(u) && Observe(u, pc, op, salt, scope, depth).Ok?
    ensures var t := Observe(u, pc, op, salt, scope, depth).value;
            && t.stack != [] && Top(t).depth == depth && Top(t).ctx == scope
            && Top(t).lastOp == op && Top(t).lastPC == pc
            && |u.stack| <= |t.stack| <= |u.stack| + 1
            && (u.stack != [] && Top(u).depth == depth ==> |t.stack| == |u.stack|)
            && t.stack[..|t.stack| - 1] == u.stack[..|t.stack| - 1]
  {
  }

  /** After the opcode hook the top frame is the one that executes, at the reported depth. */
  lemma OpcodeAscending(cfg: Config, s: State, pc: nat, op: Op, salt: Option<nat>, scope: Scope, depth: int)
    requires Ascending(s) && OnOpcode(cfg, s, pc, op, salt, scope, depth).Ok?
    ensures var t := OnOpcode(cfg, s, pc, op, salt, scope, depth).value;
            && Ascending(t)
            && t.stack != [] && Top(t).depth == depth && Top(t).ctx == scope
            && Top(t).lastOp == op && Top(t).lastPC == pc
  {
    hide Unwind, Observe;
    UnwindShape(cfg, s, depth);
    var u := Unwind(cfg, s, depth).value;
    ObserveShape(u, pc, op, salt, scope, depth);
    var t := Observe(u, pc, op, salt, scope, depth).value;
    var n := |t.stack| - 1;
    forall i, j | 0 <= i < j < |t.stack| ensures t.stack[i].depth < t.stack[j].depth {
      assert t.stack[i] == t.stack[..n][i] == u.stack[i];
      if j < n {
        assert t.stack[j] == t.stack[..n][j] == u.stack[j];
      } else if n < |u.stack| {
        assert u.stack[i].depth < u.stack[n].depth <= depth;
      } else {
        assert |u.stack| == n && u.stack[i].depth <= Top(u).depth;
      }
    }
  }

  lemma StepAscending(cfg: Config, s: State, e: Event)
    requires Ascending(s) && Step(cfg, s, e).Ok?
    ensures Ascending(Step(cfg, s, e).value)
  {
    hide OnOpcode, Unwind;
    match e
    case Opcode(pc, op, salt, scope, depth) => OpcodeAscending(cfg, s, pc, op, salt, scope, depth);
    case Exit(depth, gas) => UnwindShape(cfg, SetTop(s, AddGas(Top(s), gas)), depth);
    case _ =>
  }

  /** Depths strictly increase up the stack in every reachable state. */
  lemma {:induction false} RunAscending(cfg: Config, s: State, es: seq<Event>)
    requires Ascending(s) && Run(cfg, s, es).Ok?
    ensures Ascending(Run(cfg, s, es).value)
    decreases |es|
  {
    if es != [] {
      StepAscending(cfg, s, es[0]);
      RunAscending(cfg, Step(cfg, s, es[0]).value, es[1..]);
    }
  }

  // ---------- suspended frames ----------

  /** A hook does not report a depth below `d`. */
  predicate NotBelow(e: Event, d: int) {
    match e
    case Opcode(_, _, _, _, depth) => depth >= d
    case Exit(depth, _) => depth >= d
    case _ => true
  }

  lemma ExitSuspended(cfg: Config, s: State, depth: int, gas: U64, k: nat)
    requires Ascending(s) && OnExit(cfg, s, depth, gas).Ok?
    requires k < |s.stack| && depth >= s.stack[k].depth
    ensures var t := OnExit(cfg, s, depth, gas).value;
            |t.stack| > k && t.stack[..k] == s.stack[..k] && t.stack[k].depth == s.stack[k].depth
  {
    hide Unwind;
    var s1 := SetTop(s, AddGas(Top(s), gas));
    assert s1.stack[k].depth == s.stack[k].depth && s1.stack[..k] == s.stack[..k];
    UnwindShape(cfg, s1, depth);
  }

  lemma OpcodeSuspended(cfg: Config, s: State, pc: nat, op: Op, salt: Option<nat>, scope: Scope, depth: int, k: nat)
    requires Ascending(s) && OnOpcode(cfg, s, pc, op, salt, scope, depth).Ok?
    requires k < |s.stack| && depth >= s.stack[k].depth
    ensures var t := OnOpcode(cfg, s, pc, op, salt, scope, depth).value;
            |t.stack| > k && t.stack[..k] == s.stack[..k] && t.stack[k].depth == s.stack[k].depth
  {
    hide Unwind;
    UnwindShape(cfg, s, depth);
    var u := Unwind(cfg, s, depth).value;
    assert k < |u.stack| && u.stack[..k] == s.stack[..k];
  }

  lemma StepSuspended(cfg: Config, s: State, e: Event, k: nat)
    requires Ascending(s) && Step(cfg, s, e).Ok?
    requires k < |s.stack| && NotBelow(e, s.stack[k].depth)
    ensures var t := Step(cfg, s, e).value;
            |t.stack| > k && t.stack[..k] == s.stack[..k] && t.stack[k].depth == s.stack[k].depth
  {
    hide OnOpcode, OnExit;
    match e
    case Opcode(pc, op, salt, scope, depth) => OpcodeSuspended(cfg, s, pc, op, salt, scope, depth, k);
    case Exit(depth, gas) => ExitSuspended(cfg, s, depth, gas, k);
    case _ =>
  }

  /**
   From the push of the frame at `k` until a hook reports a depth below it, whatever happens in or
   above that frame leaves every field of every frame beneath it untouched.
   */
  lemma {:induction false} SuspendedFramesUntouched(cfg: Config, s: State, es: seq<Event>, k: nat)
    requires Ascending(s) && Run(cfg, s, es).Ok?
    requires k < |s.stack| && forall i :: 0 <= i < |es| ==> NotBelow(es[i], s.stack[k].depth)
    ensures var t := Run(cfg, s, es).value;
            |t.stack| > k && t.stack[..k] == s.stack[..k] && t.stack[k].depth == s.stack[k].depth
    decreases |es|
  {
    if es != [] {
      StepAscending(cfg, s, es[0]);
      StepSuspended(cfg, s, es[0], k);
      SuspendedFramesUntouched(cfg, Step(cfg, s, es[0]).value, es[1..], k);
    }
  }

  /** The entry hook panics exactly when a pranked frame enters by another opcode than its last. */
  lemma EnterPanics(cfg: Config, s: State, typ: Op, to: Address)
    ensures Step(cfg, s, Enter(typ, to)).Panic? <==> s.stack != [] && Top(s).prank.Some? && Top(s).lastOp != typ
  {
  }

  // ---------- jump history ----------

  datatype Executed = Executed(pc: nat, op: Op)

  /** The opcodes that a frame itself executes. */
  function OwnOps(c: Code): seq<Executed> {
    match c
    case Done => []
    case Plain(pc, op, _, next) => [Executed(pc, op)] + OwnOps(next)
    case Sub(call, next) => [Executed(call.pc, call.op)] + OwnOps(next)
    case Do(_, next) => OwnOps(next)
  }

  /** The program counters right before each JUMPDEST, for a frame whose last opcode was at `prev`. */
  function JumpSources(prev: nat, ops: seq<Executed>): seq<nat>
    decreases |ops|
  {
    if ops == [] then []
    else (if ops[0].op == JUMPDEST then [prev] else []) + JumpSources(ops[0].pc, ops[1..])
  }

  lemma LastNIsSuffix(a: seq<nat>, b: seq<nat>)
    ensures LastN(a + b, |b|) == b
    ensures |a| < |b| ==> LastN(a, |b|) == a
  {
  }

  lemma LastNAppend(a: seq<nat>, b: seq<nat>, n: nat)
    ensures LastN(LastN(a, n) + b, n) == LastN(a + b, n)
  {
    var x, y := LastN(a, n) + b, a + b;
    var d := |y| - |x|;
    assert forall i :: 0 <= i < |x| ==> x[i] == y[i + d];
  }

  lemma {:induction false} ApplyAllJumps(l: Local, cs: seq<Cheat>)
    ensures ApplyAll(l, cs).frame.lastJumps == l.frame.lastJumps
    ensures ApplyAll(l, cs).frame.lastPC == l.frame.lastPC
    decreases |cs|
  {
    if cs != [] {
      ApplyAllJumps(ApplyLocal(l, cs[0]), cs[1..]);
    }
  }

  lemma SubJumps(cfg: Config, c: Call, l: Local)
    requires ExecSub(cfg, c, l).Ok?
    ensures ExecSub(cfg, c, l).value.frame.lastJumps == ObserveOp(l.frame, c.pc, c.op, c.salt).lastJumps
    ensures ExecSub(cfg, c, l).value.frame.lastPC == c.pc
  {
    ApplyAllJumps(AfterEnter(cfg, c, l), Prologue(c.body));
  }

  lemma ObservedJumps(f: Frame, pc: nat, op: Op, salt: Option<nat>, ops: seq<Executed>)
    ensures LastN(ObserveOp(f, pc, op, salt).lastJumps + JumpSources(pc, ops), JUMP_HISTORY)
         == LastN(f.lastJumps + JumpSources(f.lastPC, [Executed(pc, op)] + ops), JUMP_HISTORY)
  {
    var own, rest := if op == JUMPDEST then [f.lastPC] else [], JumpSources(pc, ops);
    assert ([Executed(pc, op)] + ops)[1..] == ops;
    assert JumpSources(f.lastPC, [Executed(pc, op)] + ops) == own + rest;
    assert f.lastJumps + (own + rest) == (f.lastJumps + own) + rest;
    if op == JUMPDEST {
      LastNAppend(f.lastJumps + own, rest, JUMP_HISTORY);
    } else {
      assert f.lastJumps + own == f.lastJumps;
    }
  }

  /** A frame remembers exactly its last five jumps, across all of its sub-calls. */
  lemma {:induction false} JumpHistory(cfg: Config, c: Code, l: Local)
    requires Exec(cfg, c, l).Ok? && |l.frame.lastJumps| <= JUMP_HISTORY
    ensures Exec(cfg, c, l).value.frame.lastJumps
         == LastN(l.frame.lastJumps + JumpSources(l.frame.lastPC, OwnOps(c)), JUMP_HISTORY)
    decreases c
  {
    match c
    case Done => assert l.frame.lastJumps + [] == l.frame.lastJumps;
    case Plain(pc, op, salt, next) =>
      JumpHistory(cfg, next, ObserveLocal(l, pc, op, salt));
      ObservedJumps(l.frame, pc, op, salt, OwnOps(next));
    case Sub(call, next) =>
      SubJumps(cfg, call, l);
      JumpHistory(cfg, next, ExecSub(cfg, call, l).value);
      ObservedJumps(l.frame, call.pc, call.op, call.salt, OwnOps(next));
    case Do(cheat, next) => JumpHistory(cfg, next, ApplyLocal(l, cheat));
  }

  /** A new frame starts with an empty history, which its first opcode may already add to. */
  lemma ChildJumpHistory(cfg: Config, b: Body, l: Local)
    requires b.Framed? && Exec(cfg, b.code, Child(l, b)).Ok?
    ensures Exec(cfg, b.code, Child(l, b)).value.frame.lastJumps
         == LastN(JumpSources(b.pc, [Executed(b.pc, b.op)] + OwnOps(b.code)), 5)
  {
    JumpHistory(cfg, b.code, Child(l, b));
    var f := OpenFrame(b.scope, l.frame.depth + 1, b.pc, b.op, Child(l, b).world);
    ObservedJumps(f, b.pc, b.op, b.salt, OwnOps(b.code));
    assert [] + JumpSources(b.pc, [Executed(b.pc, b.op)] + OwnOps(b.code))
        == JumpSources(b.pc, [Executed(b.pc, b.op)] + OwnOps(b.code));
  }

  // ---------- cheatcode access ----------

  /**
   `a` has access to begin with, is given it in `es`, or is deployed in `es` by an account that has access
   by then.
   */
  ghost predicate Entitled(base: set<Address>, es: seq<Event>, a: Address)
    decreases |es|
  {
    || a in base
    || (exists i :: 0 <= i < |es| && Allows(es[i], a))
    || (exists i :: 0 <= i < |es| && Deploys(es[i], a) && Entitled(base, es[..i], es[i].scope.caller))
  }

  predicate Allows(e: Event, a: Address) {
    e == Command(AllowCheatcodes(a))
  }

  predicate Deploys(e: Event, a: Address) {
    e.Opcode? && e.scope.isDeployment && e.scope.address == a
  }

  lemma {:induction false} UnwindAllowed(cfg: Config, s: State, depth: int)
    requires Unwind(cfg, s, depth).Ok?
    ensures Unwind(cfg, s, depth).value.world.allowed == s.world.allowed
    decreases |s.stack|
  {
    var n := |s.stack|;
    if n >= 2 && s.stack[n - 1].depth > depth {
      var (f, w) := CloseChild(cfg, s.stack[n - 2], s.stack[n - 1], s.world).value;
      UnwindAllowed(cfg, State(s.stack[..n - 2] + [f], w), depth);
    }
  }

  lemma StepAllowed(cfg: Config, s: State, e: Event, a: Address)
    requires Step(cfg, s, e).Ok?
    ensures a in Step(cfg, s, e).value.world.allowed
       <==> a in s.world.allowed || Allows(e, a) || (Deploys(e, a) && e.scope.caller in s.world.allowed)
  {
    hide Unwind;
    match e
    case Opcode(pc, op, salt, scope, depth) => UnwindAllowed(cfg, s, depth);
    case Exit(depth, gas) => UnwindAllowed(cfg, SetTop(s, AddGas(Top(s), gas)), depth);
    case _ =>
  }

  lemma RunAllowed(cfg: Config, s: State, es: seq<Event>, a: Address)
    requires es != [] && Run(cfg, s, es).Ok?
    ensures var n := |es| - 1;
            && Run(cfg, s, es[..n]).Ok?
            && var allowed := Run(cfg, s, es[..n]).value.world.allowed;
               a in Run(cfg, s, es).value.world.allowed
               <==> a in allowed || Allows(es[n], a) || (Deploys(es[n], a) && es[n].scope.caller in allowed)
  {
    hide Step;
    var n := |es| - 1;
    assert es == es[..n] + [es[n]];
    RunConcat(cfg, s, es[..n], [es[n]]);
    var t := Run(cfg, s, es[..n]).value;
    RunOne(cfg, t, es[n]);
    StepAllowed(cfg, t, es[n], a);
  }

  /** Access is given by the Host's owner or by deployment from an entitled account, and in no other way. */
  lemma {:induction false} AccessIsEntitlement(cfg: Config, s: State, es: seq<Event>, a: Address)
    requires Run(cfg, s, es).Ok?
    ensures a in Run(cfg, s, es).value.world.allowed <==> Entitled(s.world.allowed, es, a)
    decreases |es|
  {
    if es == [] {
      assert Run(cfg, s, es) == Ok(s);
    } else {
      hide Run, Entitled;
      var n := |es| - 1;
      RunAllowed(cfg, s, es, a);
      AccessIsEntitlement(cfg, s, es[..n], a);
      if Deploys(es[n], a) {
        AccessIsEntitlement(cfg, s, es[..n], es[n].scope.caller);
      }
      EntitledLast(s.world.allowed, es, a);
    }
  }

  lemma {:induction false} EntitledLast(base: set<Address>, es: seq<Event>, a: Address)
    requires es != []
    ensures var n := |es| - 1;
            Entitled(base, es, a) <==>
            || Entitled(base, es[..n], a)
            || Allows(es[n], a)
            || (Deploys(es[n], a) && Entitled(base, es[..n], es[n].scope.caller))
  {
    var n := |es| - 1;
    assert forall i :: 0 <= i < n ==> es[..n][..i] == es[..i] && es[..n][i] == es[i];
    if exists i :: 0 <= i < n && Deploys(es[..n][i], a) && Entitled(base, es[..n][..i], es[..n][i].scope.caller) {
      var i :| 0 <= i < n && Deploys(es[..n][i], a) && Entitled(base, es[..n][..i], es[..n][i].scope.caller);
      assert Deploys(es[i], a) && Entitled(base, es[..i], es[i].scope.caller);
    }
    if exists i :: 0 <= i < |es| && Deploys(es[i], a) && Entitled(base, es[..i], es[i].scope.caller) {
      var i :| 0 <= i < |es| && Deploys(es[i], a) && Entitled(base, es[..i], es[i].scope.caller);
      if i < n {
        assert Deploys(es[..n][i], a) && Entitled(base, es[..n][..i], es[..n][i].scope.caller);
      }
    }
  }
}
