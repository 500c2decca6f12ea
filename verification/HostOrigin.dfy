/**
 The transaction origin around sub-calls.

 A frame should see the same origin after each sub-call as before it. The Host keeps that promise
 exactly as long as no sub-call without a frame is made while a prank changes the origin: such a call
 applies the override, and nothing undoes it.
 */
module HostOrigin {
  import opened Prelude
  import opened HostState
  import opened HostTrace

  /** Nobody sets the transaction origin directly. */
  predicate NoOriginWrites(cs: seq<Cheat>) {
    forall i :: 0 <= i < |cs| ==> !cs[i].WriteOrigin?
  }

  predicate OriginUnwritten(c: Code) {
    match c
    case Done => true
    case Plain(_, _, _, next) => OriginUnwritten(next)
    case Sub(call, next) =>
      && (match call.body
          case NoFrame(cheats) => NoOriginWrites(cheats)
          case Framed(_, _, _, _, _, code) => OriginUnwritten(code))
      && OriginUnwritten(next)
    case Do(cheat, next) => !cheat.WriteOrigin? && OriginUnwritten(next)
  }

  /** Every frame of the run sees the same origin after each of its sub-calls as before it. */
  predicate Balanced(cfg: Config, c: Code, l: Local) {
    match c
    case Done => true
    case Plain(pc, op, salt, next) => Short(op, salt) || Balanced(cfg, next, ObserveLocal(l, pc, op, salt))
    case Sub(call, next) =>
      && (Enters(call) ==> Balanced(cfg, call.body.code, Child(Entry(cfg, call, l), call.body)))
      && (ExecSub(cfg, call, l).Ok? ==>
            && ExecSub(cfg, call, l).value.world.origin == l.world.origin
            && Balanced(cfg, next, ExecSub(cfg, call, l).value))
    case Do(cheat, next) => Balanced(cfg, next, ApplyLocal(l, cheat))
  }

  /** The guard: a sub-call without a frame that would leave another origin behind. */
  predicate Leaks(cfg: Config, c: Call, l: Local) {
    && c.body.NoFrame?
    && !Short(c.op, c.salt)
    && c.caller.Some?
    && AppliesOrigin(cfg, ObserveOp(l.frame, c.pc, c.op, c.salt), c.caller.value)
    && l.frame.prank.value.origin != Some(l.world.origin)
  }

  predicate NoLeak(cfg: Config, c: Code, l: Local) {
    match c
    case Done => true
    case Plain(pc, op, salt, next) => Short(op, salt) || NoLeak(cfg, next, ObserveLocal(l, pc, op, salt))
    case Sub(call, next) =>
      && !Leaks(cfg, call, l)
      && (Enters(call) ==> NoLeak(cfg, call.body.code, Child(Entry(cfg, call, l), call.body)))
      && (ExecSub(cfg, call, l).Ok? ==> NoLeak(cfg, next, ExecSub(cfg, call, l).value))
    case Do(cheat, next) => NoLeak(cfg, next, ApplyLocal(l, cheat))
  }

  /** A pending restoration in the running frame would restore the origin the frame sees. */
  predicate Settled(l: Local) {
    l.frame.prank.Some? && l.frame.prank.value.origin.Some? ==> l.frame.prank.value.prevOrigin == l.world.origin
  }

  lemma {:induction false} CheatsKeepOrigin(l: Local, cs: seq<Cheat>)
    requires NoOriginWrites(cs)
    ensures ApplyAll(l, cs).world.origin == l.world.origin
    ensures Settled(l) ==> Settled(ApplyAll(l, cs))
    decreases |cs|
  {
    if cs != [] {
      assert !cs[0].WriteOrigin?;
      CheatsKeepOrigin(ApplyLocal(l, cs[0]), cs[1..]);
    }
  }

  /** A frameless sub-call keeps the origin unless it leaks. */
  lemma FramelessOrigin(cfg: Config, c: Call, l: Local)
    requires c.body.NoFrame? && NoOriginWrites(c.body.cheats) && Settled(l)
    ensures ExecSub(cfg, c, l).Ok? ==>
              && (ExecSub(cfg, c, l).value.world.origin == l.world.origin <==> !Leaks(cfg, c, l))
              && (!Leaks(cfg, c, l) ==> Settled(ExecSub(cfg, c, l).value))
  {
    CheatsKeepOrigin(AfterEnter(cfg, c, l), c.body.cheats);
  }

  /** A framed sub-call restores the origin, if its callee ends with the origin it started with. */
  lemma FramedOrigin(cfg: Config, c: Call, l: Local)
    requires c.body.Framed? && Settled(l) && ExecSub(cfg, c, l).Ok?
    requires var child := Child(Entry(cfg, c, l), c.body);
             Exec(cfg, c.body.code, child).value.world.origin == child.world.origin
    ensures ExecSub(cfg, c, l).value.world.origin == l.world.origin
    ensures Settled(ExecSub(cfg, c, l).value)
  {
    WritesKeep(AfterEnter(cfg, c, l), c.body.writes);
  }

  /** Origins balance in every frame of a run exactly when no sub-call of the run leaks. */
  lemma {:induction false} OriginBalances(cfg: Config, c: Code, l: Local)
    requires OriginUnwritten(c) && Settled(l)
    ensures Balanced(cfg, c, l) <==> NoLeak(cfg, c, l)
    ensures NoLeak(cfg, c, l) && Exec(cfg, c, l).Ok? ==>
              Exec(cfg, c, l).value.world.origin == l.world.origin && Settled(Exec(cfg, c, l).value)
    decreases c
  {
    match c
    case Done =>
    case Plain(pc, op, salt, next) => OriginBalances(cfg, next, ObserveLocal(l, pc, op, salt));
    case Sub(call, next) =>
      if call.body.Framed? {
        OriginBalances(cfg, call.body.code, Child(Entry(cfg, call, l), call.body));
      } else {
        FramelessOrigin(cfg, call, l);
      }
      if ExecSub(cfg, call, l).Ok? {
        if call.body.Framed? {
          if NoLeak(cfg, call.body.code, Child(Entry(cfg, call, l), call.body)) {
            FramedOrigin(cfg, call, l);
            OriginBalances(cfg, next, ExecSub(cfg, call, l).value);
          }
        } else if !Leaks(cfg, call, l) {
          OriginBalances(cfg, next, ExecSub(cfg, call, l).value);
        }
      }
    case Do(cheat, next) => OriginBalances(cfg, next, ApplyLocal(l, cheat));
  }

  // ---------- pranks with a sender, over arbitrary hook sequences ----------

  /** Nobody sets the origin directly, and no prank with an origin is started without a sender. */
  predicate NamesSender(e: Event) {
    e.Command? ==>
      && !e.cheat.WriteOrigin?
      && (e.cheat.StartPrankCmd? && e.cheat.origin.Some? ==> e.cheat.sender.Some?)
  }

  /** A prank that names a sender besides its origin, started while the origin was `o`. */
  predicate ShadowedPrank(p: Option<Prank>, o: Address) {
    p.Some? && p.value.origin.Some? ==> p.value.sender.Some? && p.value.prevOrigin == o
  }

  ghost predicate Shadowed(s: State, o: Address) {
    s.world.origin == o && forall i :: 0 <= i < |s.stack| ==> ShadowedPrank(s.stack[i].prank, o)
  }

  lemma CloseShadowed(cfg: Config, parent: Frame, child: Frame, w: World)
    requires CloseChild(cfg, parent, child, w).Ok? && ShadowedPrank(parent.prank, w.origin)
    ensures var (f, w1) := CloseChild(cfg, parent, child, w).value;
            w1.origin == w.origin && ShadowedPrank(f.prank, w.origin)
  {
  }

  lemma {:induction false} UnwindShadowed(cfg: Config, s: State, depth: int, o: Address)
    requires Shadowed(s, o) && Unwind(cfg, s, depth).Ok?
    ensures Shadowed(Unwind(cfg, s, depth).value, o)
    decreases |s.stack|
  {
    hide CloseChild;
    var n := |s.stack|;
    if n >= 2 && s.stack[n - 1].depth > depth {
      CloseShadowed(cfg, s.stack[n - 2], s.stack[n - 1], s.world);
      UnwindShadowed(cfg, Pop(cfg, s).value, depth, o);
    }
  }

  lemma StepShadowed(cfg: Config, s: State, e: Event, o: Address)
    requires Shadowed(s, o) && NamesSender(e) && Step(cfg, s, e).Ok?
    ensures Shadowed(Step(cfg, s, e).value, o)
  {
    hide Unwind;
    match e
    case Opcode(pc, op, salt, scope, depth) => UnwindShadowed(cfg, s, depth, o);
    case Exit(depth, gas) => UnwindShadowed(cfg, SetTop(s, AddGas(Top(s), gas)), depth, o);
    case _ =>
  }

  lemma {:induction false} RunShadowed(cfg: Config, s: State, es: seq<Event>, o: Address)
    requires Shadowed(s, o) && Run(cfg, s, es).Ok?
    requires forall i :: 0 <= i < |es| ==> NamesSender(es[i])
    ensures Shadowed(Run(cfg, s, es).value, o)
    decreases |es|
  {
    if es != [] {
      hide Step;
      assert NamesSender(es[0]);
      StepShadowed(cfg, s, es[0], o);
      RunShadowed(cfg, Step(cfg, s, es[0]).value, es[1..], o);
    }
  }

  /**
   A prank that names both a sender and an origin never applies the origin: if every prank with an origin
   names a sender and nobody writes the origin, the origin is the same after every event of the run.
   */
  lemma {:induction false} SenderShadowsOrigin(cfg: Config, s: State, es: seq<Event>, k: nat)
    requires Shadowed(s, s.world.origin) && Run(cfg, s, es).Ok? && k <= |es|
    requires forall i :: 0 <= i < |es| ==> NamesSender(es[i])
    ensures Run(cfg, s, es[..k]).Ok? && Run(cfg, s, es[..k]).value.world.origin == s.world.origin
  {
    assert es == es[..k] + es[k..];
    RunConcat(cfg, s, es[..k], es[k..]);
    RunShadowed(cfg, s, es[..k], s.world.origin);
  }

  /**
   A cheatcode call made while a prank overrides only the origin leaks: the prank's origin stays, and
   the prank that the cheatcode starts records it as the one to restore.
   */
  lemma OriginLeakExample(cfg: Config, l: Local, o: Address, p: Address)
    requires l.frame.prank == Some(Prank(None, Some(o), l.world.origin, true, false))
    requires o != l.world.origin && l.frame.ctx.address != VM_ADDR
    ensures var cheat := Call(0, CALL, None, Some(l.frame.ctx.address), VM_ADDR,
                              NoFrame([StartPrankCmd(None, Some(p), false, false)]), 0);
            var r := ExecSub(cfg, cheat, l);
            && Settled(l)
            && r.Ok?
            && r.value.world.origin == o
            && r.value.frame.prank.Some?
            && r.value.frame.prank.value.prevOrigin == o
  {
    var cmds := [StartPrankCmd(None, Some(p), false, false)];
    var cheat := Call(0, CALL, None, Some(l.frame.ctx.address), VM_ADDR, NoFrame(cmds), 0);
    var l3 := AfterEnter(cfg, cheat, l);
    assert cmds[1..] == [];
    assert ApplyAll(l3, cmds) == ApplyLocal(l3, cmds[0]);
  }

  /** A whole call from outside leaves the origin as it was, unless one of its sub-calls leaks. */
  lemma {:induction false} RootOriginRestored(cfg: Config, w: World, typ: Op, to: Address, b: Body, gas: U64)
    requires b.Framed? ==> OriginUnwritten(b.code) && NoLeak(cfg, b.code, RootFrame(b, w))
    requires Run(cfg, State([], w), RootTrace(typ, to, b, gas)).Ok?
    ensures Run(cfg, State([], w), RootTrace(typ, to, b, gas)).value.world.origin == w.origin
  {
    hide Run, RootTrace;
    RunRoot(cfg, w, typ, to, b, gas);
    OutsideWritesKeep(w, b.writes);
    OriginBalances(cfg, b.code, RootFrame(b, w));
  }
}
