/**
 How long a prank lasts: a plain one governs one child frame, a repeating one all of them until it is
 stopped, and a frame never turns from pranking to broadcasting, or back, without a pause in between.
 */
module HostPranks {
  import opened Prelude
  import opened HostState
  import opened HostTrace

  /** 1 when `p` is a prank or broadcast for a single sub-call, 0 otherwise. */
  function Once(p: Option<Prank>): nat {
    if p.Some? && !p.value.repeat then 1 else 0
  }

  /** The prank in force when each of the frame's own child frames runs, in order. */
  function Governing(cfg: Config, c: Code, l: Local): seq<Option<Prank>> {
    match c
    case Done => []
    case Plain(pc, op, salt, next) => Governing(cfg, next, ObserveLocal(l, pc, op, salt))
    case Sub(call, next) =>
      (if call.body.Framed? then [Entry(cfg, call, l).frame.prank] else [])
      + (if ExecSub(cfg, call, l).Ok? then Governing(cfg, next, ExecSub(cfg, call, l).value) else [])
    case Do(cheat, next) => Governing(cfg, next, ApplyLocal(l, cheat))
  }

  /** How many of the pranks are for a single sub-call. */
  function CountOnce(ps: seq<Option<Prank>>): nat {
    if ps == [] then 0 else Once(ps[0]) + CountOnce(ps[1..])
  }

  /** How often commands give a frame a single-use prank that it did not have. */
  function Gained(l: Local, cs: seq<Cheat>): nat
    decreases |cs|
  {
    if cs == [] then 0
    else
      var l1 := ApplyLocal(l, cs[0]);
      (if Once(l.frame.prank) < Once(l1.frame.prank) then 1 else 0) + Gained(l1, cs[1..])
  }

  /** How often commands take a single-use prank from a frame before it is used. */
  function Dropped(l: Local, cs: seq<Cheat>): nat
    decreases |cs|
  {
    if cs == [] then 0
    else
      var l1 := ApplyLocal(l, cs[0]);
      (if Once(l1.frame.prank) < Once(l.frame.prank) then 1 else 0) + Dropped(l1, cs[1..])
  }

  function TotalGained(cfg: Config, c: Code, l: Local): nat {
    match c
    case Done => 0
    case Plain(pc, op, salt, next) => TotalGained(cfg, next, ObserveLocal(l, pc, op, salt))
    case Sub(call, next) =>
      Gained(AfterEnter(cfg, call, l), Prologue(call.body))
      + (if ExecSub(cfg, call, l).Ok? then TotalGained(cfg, next, ExecSub(cfg, call, l).value) else 0)
    case Do(cheat, next) => Gained(l, [cheat]) + TotalGained(cfg, next, ApplyLocal(l, cheat))
  }

  function TotalDropped(cfg: Config, c: Code, l: Local): nat {
    match c
    case Done => 0
    case Plain(pc, op, salt, next) => TotalDropped(cfg, next, ObserveLocal(l, pc, op, salt))
    case Sub(call, next) =>
      Dropped(AfterEnter(cfg, call, l), Prologue(call.body))
      + (if ExecSub(cfg, call, l).Ok? then TotalDropped(cfg, next, ExecSub(cfg, call, l).value) else 0)
    case Do(cheat, next) => Dropped(l, [cheat]) + TotalDropped(cfg, next, ApplyLocal(l, cheat))
  }

  lemma {:induction false} CheatsConserve(l: Local, cs: seq<Cheat>)
    ensures Once(l.frame.prank) + Gained(l, cs) == Once(ApplyAll(l, cs).frame.prank) + Dropped(l, cs)
    decreases |cs|
  {
    if cs != [] {
      CheatsConserve(ApplyLocal(l, cs[0]), cs[1..]);
    }
  }

  /** A framed sub-call uses up a non-repeating prank; a frameless one uses up nothing. */
  lemma SubOnce(cfg: Config, c: Call, l: Local)
    requires ExecSub(cfg, c, l).Ok?
    ensures c.body.Framed? ==>
              && Entry(cfg, c, l).frame.prank == l.frame.prank
              && ExecSub(cfg, c, l).value.frame.prank == (if Once(l.frame.prank) == 1 then None else l.frame.prank)
    ensures Once(l.frame.prank) + Gained(AfterEnter(cfg, c, l), Prologue(c.body))
         == Once(ExecSub(cfg, c, l).value.frame.prank) + Dropped(AfterEnter(cfg, c, l), Prologue(c.body))
            + if c.body.Framed? then Once(l.frame.prank) else 0
  {
    CheatsConserve(AfterEnter(cfg, c, l), Prologue(c.body));
    if c.body.Framed? {
      WritesKeep(AfterEnter(cfg, c, l), c.body.writes);
    }
  }

  /**
   Single-use pranks are conserved: each one that a frame has at first or gains later governs one child
   frame, or is dropped by a command, or is still pending at the end.
   */
  lemma {:induction false} SinglePranksAreConserved(cfg: Config, c: Code, l: Local)
    requires Exec(cfg, c, l).Ok?
    ensures Once(l.frame.prank) + TotalGained(cfg, c, l)
         == CountOnce(Governing(cfg, c, l)) + TotalDropped(cfg, c, l) + Once(Exec(cfg, c, l).value.frame.prank)
    decreases c
  {
    hide ExecSub, Gained, Dropped;
    match c
    case Done =>
    case Plain(pc, op, salt, next) => SinglePranksAreConserved(cfg, next, ObserveLocal(l, pc, op, salt));
    case Sub(call, next) =>
      SubOnce(cfg, call, l);
      SinglePranksAreConserved(cfg, next, ExecSub(cfg, call, l).value);
      var rest := Governing(cfg, next, ExecSub(cfg, call, l).value);
      if call.body.Framed? {
        assert ([l.frame.prank] + rest)[1..] == rest;
      } else {
        assert [] + rest == rest;
      }
    case Do(cheat, next) =>
      SinglePranksAreConserved(cfg, next, ApplyLocal(l, cheat));
      CheatsConserve(l, [cheat]);
      ApplyOne(l, cheat);
  }

  lemma ApplyOne(l: Local, cheat: Cheat)
    ensures ApplyAll(l, [cheat]) == ApplyLocal(l, cheat)
  {
    assert [cheat][1..] == [];
  }

  predicate NoPrankCommand(c: Cheat) {
    !c.StartPrankCmd? && !c.StopPrankCmd?
  }

  /** The frame itself neither starts nor stops a prank. Its callees may. */
  predicate Undisturbed(c: Code) {
    match c
    case Done => true
    case Plain(_, _, _, next) => Undisturbed(next)
    case Sub(call, next) =>
      && (call.body.NoFrame? ==> forall i :: 0 <= i < |call.body.cheats| ==> NoPrankCommand(call.body.cheats[i]))
      && Undisturbed(next)
    case Do(cheat, next) => NoPrankCommand(cheat) && Undisturbed(next)
  }

  lemma {:induction false} CheatsUndisturbed(l: Local, cs: seq<Cheat>)
    requires forall i :: 0 <= i < |cs| ==> NoPrankCommand(cs[i])
    ensures ApplyAll(l, cs).frame.prank == l.frame.prank
    decreases |cs|
  {
    if cs != [] {
      assert NoPrankCommand(cs[0]);
      CheatsUndisturbed(ApplyLocal(l, cs[0]), cs[1..]);
    }
  }

  /** Undisturbed, a non-repeating prank governs the frame's next child frame and no other. */
  lemma {:induction false} SinglePrankGovernsNext(cfg: Config, c: Code, l: Local)
    requires l.frame.prank.None? || !l.frame.prank.value.repeat
    requires Undisturbed(c) && Exec(cfg, c, l).Ok?
    ensures forall i :: 0 <= i < |Governing(cfg, c, l)| ==>
              Governing(cfg, c, l)[i] == if i == 0 then l.frame.prank else None
    ensures Exec(cfg, c, l).value.frame.prank == if Governing(cfg, c, l) == [] then l.frame.prank else None
    decreases c
  {
    hide ExecSub;
    match c
    case Done =>
    case Plain(pc, op, salt, next) => SinglePrankGovernsNext(cfg, next, ObserveLocal(l, pc, op, salt));
    case Sub(call, next) =>
      SubOnce(cfg, call, l);
      if call.body.NoFrame? {
        FramelessUndisturbed(cfg, call, l);
      }
      SinglePrankGovernsNext(cfg, next, ExecSub(cfg, call, l).value);
    case Do(cheat, next) => SinglePrankGovernsNext(cfg, next, ApplyLocal(l, cheat));
  }

  lemma FramelessUndisturbed(cfg: Config, c: Call, l: Local)
    requires c.body.NoFrame? && forall i :: 0 <= i < |c.body.cheats| ==> NoPrankCommand(c.body.cheats[i])
    ensures ExecSub(cfg, c, l).Ok? ==> ExecSub(cfg, c, l).value.frame.prank == l.frame.prank
  {
    CheatsUndisturbed(AfterEnter(cfg, c, l), c.body.cheats);
  }

  /** A repeating prank governs every child frame until the frame itself stops or replaces it. */
  lemma {:induction false} RepeatingPrankGovernsAll(cfg: Config, c: Code, l: Local)
    requires l.frame.prank.Some? && l.frame.prank.value.repeat
    requires Undisturbed(c) && Exec(cfg, c, l).Ok?
    ensures Exec(cfg, c, l).value.frame.prank == l.frame.prank
    ensures forall i :: 0 <= i < |Governing(cfg, c, l)| ==> Governing(cfg, c, l)[i] == l.frame.prank
    decreases c
  {
    match c
    case Done =>
    case Plain(pc, op, salt, next) => RepeatingPrankGovernsAll(cfg, next, ObserveLocal(l, pc, op, salt));
    case Sub(call, next) =>
      SubOnce(cfg, call, l);
      if call.body.NoFrame? {
        FramelessUndisturbed(cfg, call, l);
      }
      RepeatingPrankGovernsAll(cfg, next, ExecSub(cfg, call, l).value);
    case Do(cheat, next) => RepeatingPrankGovernsAll(cfg, next, ApplyLocal(l, cheat));
  }

  // ---------- modes, over arbitrary hook sequences ----------

  /** The mode of a frame tells what a mode is meant to tell. */
  lemma FrameModeMeans(cfg: Config, f: Frame)
    ensures ModeMeans(cfg, f, FrameMode(f))
    ensures FrameMode(f) == CallerModeNone <==> f.prank.None?
    ensures f.prank.Some? ==> (Recurrent(FrameMode(f)) <==> f.prank.value.repeat)
  {
    hide NewBroadcast;
  }

  /** A frame may stay in its mode family, leave it for none, or enter it from none. */
  predicate SameFamily(before: Frame, after: Frame) {
    before.prank.Some? && after.prank.Some? ==> before.prank.value.broadcast == after.prank.value.broadcast
  }

  ghost predicate FamiliesKept(s: State, t: State) {
    forall i :: 0 <= i < |s.stack| && i < |t.stack| ==> SameFamily(s.stack[i], t.stack[i])
  }

  lemma {:induction false} UnwindOnlyClears(cfg: Config, s: State, depth: int)
    requires Unwind(cfg, s, depth).Ok?
    ensures var t := Unwind(cfg, s, depth).value;
            && |t.stack| <= |s.stack|
            && forall i :: 0 <= i < |t.stack| ==> t.stack[i].prank == s.stack[i].prank || t.stack[i].prank == None
    decreases |s.stack|
  {
    var n := |s.stack|;
    if n >= 2 && s.stack[n - 1].depth > depth {
      var (f, w) := CloseChild(cfg, s.stack[n - 2], s.stack[n - 1], s.world).value;
      UnwindOnlyClears(cfg, State(s.stack[..n - 2] + [f], w), depth);
    }
  }

  lemma ObserveKeepsPranks(u: State, pc: nat, op: Op, salt: Option<nat>, scope: Scope, depth: int)
    requires Observe(u, pc, op, salt, scope, depth).Ok?
    ensures var t := Observe(u, pc, op, salt, scope, depth).value;
            forall i :: 0 <= i < |t.stack| ==> t.stack[i].prank == if i < |u.stack| then u.stack[i].prank else None
  {
  }

  lemma OpcodeFamilies(cfg: Config, s: State, pc: nat, op: Op, salt: Option<nat>, scope: Scope, depth: int)
    requires OnOpcode(cfg, s, pc, op, salt, scope, depth).Ok?
    ensures FamiliesKept(s, OnOpcode(cfg, s, pc, op, salt, scope, depth).value)
  {
    hide Unwind, Observe;
    UnwindOnlyClears(cfg, s, depth);
    var u := Unwind(cfg, s, depth).value;
    ObserveKeepsPranks(u, pc, op, salt, scope, depth);
    var t := OnOpcode(cfg, s, pc, op, salt, scope, depth).value;
    forall i | 0 <= i < |s.stack| && i < |t.stack| ensures SameFamily(s.stack[i], t.stack[i]) {
      assert t.stack[i].prank == if i < |u.stack| then u.stack[i].prank else None;
    }
  }

  lemma ExitFamilies(cfg: Config, s: State, depth: int, gas: U64)
    requires OnExit(cfg, s, depth, gas).Ok?
    ensures FamiliesKept(s, OnExit(cfg, s, depth, gas).value)
  {
    UnwindOnlyClears(cfg, SetTop(s, AddGas(Top(s), gas)), depth);
  }

  /** No hook, and no command, moves any frame between prank mode and broadcast mode in one step. */
  lemma {:induction false} StepKeepsFamilies(cfg: Config, s: State, e: Event)
    requires Step(cfg, s, e).Ok?
    ensures FamiliesKept(s, Step(cfg, s, e).value)
  {
    hide OnOpcode, OnExit;
    match e
    case Opcode(pc, op, salt, scope, depth) => OpcodeFamilies(cfg, s, pc, op, salt, scope, depth);
    case Exit(depth, gas) => ExitFamilies(cfg, s, depth, gas);
    case _ =>
  }

  /** After the first `k` events of the run, the frame at `i` is there and in some mode other than none. */
  ghost predicate InSomeMode(cfg: Config, s: State, es: seq<Event>, i: nat, k: nat) {
    && k <= |es|
    && Run(cfg, s, es[..k]).Ok?
    && i < |Run(cfg, s, es[..k]).value.stack|
    && FrameMode(Run(cfg, s, es[..k]).value.stack[i]) != CallerModeNone
  }

  /**
   Over any sequence of hooks and commands: as long as a frame is in some mode after each event, it is in a
   broadcast mode at the end exactly when it was at the start. To get from pranking to broadcasting, or
   back, a frame must be in no mode in between.
   */
  lemma {:induction false} FamiliesNeverCross(cfg: Config, s: State, es: seq<Event>, i: nat)
    requires forall k :: 0 <= k <= |es| ==> InSomeMode(cfg, s, es, i, k)
    ensures Run(cfg, s, es).Ok? && i < |s.stack| && i < |Run(cfg, s, es).value.stack|
    ensures InBroadcast(FrameMode(s.stack[i])) <==> InBroadcast(FrameMode(Run(cfg, s, es).value.stack[i]))
    ensures InPrank(FrameMode(s.stack[i])) <==> InPrank(FrameMode(Run(cfg, s, es).value.stack[i]))
    decreases |es|
  {
    hide Step;
    assert es[..|es|] == es;
    assert InSomeMode(cfg, s, es, i, |es|) && InSomeMode(cfg, s, es, i, 0);
    if es != [] {
      var n := |es| - 1;
      forall k | 0 <= k <= n ensures InSomeMode(cfg, s, es[..n], i, k) {
        assert es[..n][..k] == es[..k];
        assert InSomeMode(cfg, s, es, i, k);
      }
      FamiliesNeverCross(cfg, s, es[..n], i);
      assert es == es[..n] + [es[n]];
      RunConcat(cfg, s, es[..n], [es[n]]);
      var t := Run(cfg, s, es[..n]).value;
      RunOne(cfg, t, es[n]);
      StepKeepsFamilies(cfg, t, es[n]);
    }
  }
}
