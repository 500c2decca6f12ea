/**
 What pranks are for: whom the frames that a pranking or broadcasting frame calls see as their caller, from
 the command that starts a prank to the one that stops it.
 */
module HostCallers {
  import opened Prelude
  import opened HostState
  import opened HostTrace
  import opened HostNonces
  import opened HostPranks
  import opened HostOrigin

  /** A broadcast CREATE2 is made to look as if it came from the deterministic deployer. */
  predicate ByDeployer(cfg: Config, p: Option<Prank>, op: Op) {
    cfg.useCreate2Deployer && op == CREATE2 && p.Some? && p.value.broadcast
  }

  /**
   What the callee of `c` sees as its caller while `p` is in force in the frame at address `self`: the
   deployer, or the prank's sender, or the frame itself when there is no prank or it names none.
   */
  predicate SeesCaller(cfg: Config, p: Option<Prank>, c: Call, self: Address) {
    c.body.Framed? && c.op in {CALL, CREATE, CREATE2} ==>
      && (ByDeployer(cfg, p, c.op) ==> c.body.scope.caller == DETERMINISTIC_DEPLOYER)
      && (!ByDeployer(cfg, p, c.op) && p.Some? && p.value.sender.Some? ==> c.body.scope.caller == p.value.sender.value)
      && (!ByDeployer(cfg, p, c.op) && (p.None? || p.value.sender.None?) ==> c.body.scope.caller == self)
  }

  lemma CalleeSeesCaller(cfg: Config, c: Call, l: Local)
    requires c.body.Framed? && EvmCall(cfg, c, l)
    ensures SeesCaller(cfg, l.frame.prank, c, l.frame.ctx.address)
  {
  }

  /** Pranks do not apply to what the cheatcode precompile itself calls. */
  lemma CheatcodesAreUnpranked(cfg: Config, s: State, f: Frame)
    ensures Step(cfg, s, Caller(VM_ADDR)) == Ok(s)
    ensures CallerOverride(cfg, f, VM_ADDR) == VM_ADDR
  {
  }

  /** The frame's own sub-calls that open a frame, in order. */
  function Children(c: Code): seq<Call> {
    match c
    case Done => []
    case Plain(_, _, _, next) => Children(next)
    case Sub(call, next) => (if call.body.Framed? then [call] else []) + Children(next)
    case Do(_, next) => Children(next)
  }

  /** Every child frame sees the caller that the prank governing it calls for, in a frame at address `self`. */
  ghost predicate CallersFit(cfg: Config, calls: seq<Call>, pranks: seq<Option<Prank>>, self: Address) {
    && |calls| == |pranks|
    && forall i :: 0 <= i < |calls| ==> SeesCaller(cfg, pranks[i], calls[i], self)
  }

  /** In a faithful run every child frame sees the caller that the prank governing it calls for. */
  lemma {:induction false} GovernedCallers(cfg: Config, c: Code, l: Local)
    requires Faithful(cfg, c, l) && Exec(cfg, c, l).Ok?
    ensures CallersFit(cfg, Children(c), Governing(cfg, c, l), l.frame.ctx.address)
    decreases c
  {
    hide Entry, EvmCall, CallersFit, ExecSub;
    match c
    case Done => assert CallersFit(cfg, [], [], l.frame.ctx.address) by { NoCallers(cfg, l.frame.ctx.address); }
    case Plain(pc, op, salt, next) => GovernedCallers(cfg, next, ObserveLocal(l, pc, op, salt));
    case Sub(call, next) =>
      var l1 := ExecSub(cfg, call, l).value;
      ExecSubSameFrame(cfg, call, l);
      GovernedCallers(cfg, next, l1);
      CallersFitNext(cfg, call, l, Children(next), Governing(cfg, next, l1));
    case Do(cheat, next) => GovernedCallers(cfg, next, ApplyLocal(l, cheat));
  }

  lemma OkEnters(cfg: Config, c: Call, l: Local)
    requires ExecSub(cfg, c, l).Ok? && c.body.Framed?
    ensures Enters(c)
  {
  }

  lemma NoCallers(cfg: Config, self: Address)
    ensures CallersFit(cfg, [], [], self)
  {
  }

  lemma CallersFitNext(cfg: Config, c: Call, l: Local, calls: seq<Call>, pranks: seq<Option<Prank>>)
    requires ExecSub(cfg, c, l).Ok? && (Enters(c) ==> EvmCall(cfg, c, l))
    requires CallersFit(cfg, calls, pranks, l.frame.ctx.address)
    ensures if c.body.Framed?
            then CallersFit(cfg, [c] + calls, [Entry(cfg, c, l).frame.prank] + pranks, l.frame.ctx.address)
            else CallersFit(cfg, [] + calls, [] + pranks, l.frame.ctx.address)
  {
    hide Entry, EvmCall, SeesCaller, ExecSub;
    if c.body.Framed? {
      SubOnce(cfg, c, l);
      OkEnters(cfg, c, l);
      CalleeSeesCaller(cfg, c, l);
    } else {
      assert [] + calls == calls && [] + pranks == pranks;
    }
  }

  // ---------- origins ----------

  /** The origin that each of the frame's own child frames starts with, in order. */
  function ChildOrigins(cfg: Config, c: Code, l: Local): seq<Address> {
    match c
    case Done => []
    case Plain(pc, op, salt, next) => ChildOrigins(cfg, next, ObserveLocal(l, pc, op, salt))
    case Sub(call, next) =>
      (if call.body.Framed? then [Child(Entry(cfg, call, l), call.body).world.origin] else [])
      + (if ExecSub(cfg, call, l).Ok? then ChildOrigins(cfg, next, ExecSub(cfg, call, l).value) else [])
    case Do(cheat, next) => ChildOrigins(cfg, next, ApplyLocal(l, cheat))
  }

  /**
   What the callee of `c` sees as the transaction's origin while `p` is in force: the prank's, if it names
   one and no sender, and the one its caller sees otherwise.
   */
  predicate SeesOrigin(cfg: Config, p: Option<Prank>, c: Call, origin: Address, seen: Address) {
    c.body.Framed? && c.op in {CALL, CREATE, CREATE2} ==>
      if !ByDeployer(cfg, p, c.op) && p.Some? && p.value.sender.None? && p.value.origin.Some?
      then seen == p.value.origin.value
      else seen == origin
  }

  lemma CalleeSeesOrigin(cfg: Config, c: Call, l: Local)
    requires c.body.Framed? && EvmCall(cfg, c, l)
    ensures SeesOrigin(cfg, l.frame.prank, c, l.world.origin, Child(Entry(cfg, c, l), c.body).world.origin)
  {
    WritesKeep(AfterEnter(cfg, c, l), c.body.writes);
  }

  /** Every child frame sees the origin that the prank governing it calls for, in a frame that sees `origin`. */
  ghost predicate OriginsFit(
    cfg: Config, calls: seq<Call>, pranks: seq<Option<Prank>>, seen: seq<Address>, origin: Address)
  {
    && |calls| == |pranks| == |seen|
    && forall i :: 0 <= i < |calls| ==> SeesOrigin(cfg, pranks[i], calls[i], origin, seen[i])
  }

  /** In a faithful run without leaks every child frame sees the origin that the prank governing it calls for. */
  lemma {:induction false} GovernedOrigins(cfg: Config, c: Code, l: Local)
    requires Faithful(cfg, c, l) && Exec(cfg, c, l).Ok?
    requires OriginUnwritten(c) && Settled(l) && NoLeak(cfg, c, l)
    ensures OriginsFit(cfg, Children(c), Governing(cfg, c, l), ChildOrigins(cfg, c, l), l.world.origin)
    decreases c
  {
    hide Entry, EvmCall, OriginsFit, ExecSub;
    match c
    case Done => assert OriginsFit(cfg, [], [], [], l.world.origin) by { NoOrigins(cfg, l.world.origin); }
    case Plain(pc, op, salt, next) => GovernedOrigins(cfg, next, ObserveLocal(l, pc, op, salt));
    case Sub(call, next) =>
      var l1 := ExecSub(cfg, call, l).value;
      OneSubOrigin(cfg, call, next, l);
      GovernedOrigins(cfg, next, l1);
      OriginsFitNext(cfg, call, l, Children(next), Governing(cfg, next, l1), ChildOrigins(cfg, next, l1));
    case Do(cheat, next) => GovernedOrigins(cfg, next, ApplyLocal(l, cheat));
  }

  lemma NoOrigins(cfg: Config, origin: Address)
    ensures OriginsFit(cfg, [], [], [], origin)
  {
  }

  lemma OriginsFitNext(
    cfg: Config, c: Call, l: Local, calls: seq<Call>, pranks: seq<Option<Prank>>, seen: seq<Address>)
    requires ExecSub(cfg, c, l).Ok? && (Enters(c) ==> EvmCall(cfg, c, l))
    requires OriginsFit(cfg, calls, pranks, seen, l.world.origin)
    ensures if c.body.Framed?
            then OriginsFit(cfg, [c] + calls, [Entry(cfg, c, l).frame.prank] + pranks,
                            [Child(Entry(cfg, c, l), c.body).world.origin] + seen, l.world.origin)
            else OriginsFit(cfg, [] + calls, [] + pranks, [] + seen, l.world.origin)
  {
    hide Entry, EvmCall, SeesOrigin, ExecSub;
    if c.body.Framed? {
      SubOnce(cfg, c, l);
      OkEnters(cfg, c, l);
      CalleeSeesOrigin(cfg, c, l);
    } else {
      assert [] + calls == calls && [] + pranks == pranks && [] + seen == seen;
    }
  }

  lemma {:induction false} OneSubOrigin(cfg: Config, c: Call, next: Code, l: Local)
    requires ExecSub(cfg, c, l).Ok? && OriginUnwritten(Sub(c, next)) && Settled(l) && NoLeak(cfg, Sub(c, next), l)
    ensures ExecSub(cfg, c, l).value.world.origin == l.world.origin && Settled(ExecSub(cfg, c, l).value)
  {
    OriginBalances(cfg, Sub(c, Done), l);
    assert Exec(cfg, Sub(c, Done), l) == ExecSub(cfg, c, l);
  }

  /** A written origin is what the frame, and its unpranked child frames, see from then on. */
  lemma WrittenOriginIsSeen(cfg: Config, a: Address, c: Code, l: Local)
    requires var l1 := ApplyLocal(l, WriteOrigin(a));
             Faithful(cfg, c, l1) && Exec(cfg, c, l1).Ok? && OriginUnwritten(c) && Settled(l1) && NoLeak(cfg, c, l1)
    ensures OriginsFit(cfg, Children(c), Governing(cfg, Do(WriteOrigin(a), c), l),
                       ChildOrigins(cfg, Do(WriteOrigin(a), c), l), a)
    ensures Exec(cfg, Do(WriteOrigin(a), c), l).value.world.origin == a
  {
    hide OriginsFit;
    var l1 := ApplyLocal(l, WriteOrigin(a));
    GovernedOrigins(cfg, c, l1);
    OriginBalances(cfg, c, l1);
  }

  // ---------- starting ----------

  /** A prank as it was asked for. */
  predicate IsPrank(p: Option<Prank>, start: Cheat)
    requires start.StartPrankCmd?
  {
    && p.Some?
    && p.value.sender == start.sender
    && p.value.origin == start.origin
    && p.value.repeat == start.repeat
    && p.value.broadcast == start.broadcast
  }

  /** The frame has no prank, or one of the named family. */
  predicate Family(p: Option<Prank>, broadcast: bool) {
    p.Some? ==> p.value.broadcast == broadcast
  }

  /**
   A started prank governs the frame's child frames as asked for: the next one, or all of them when it
   repeats. It replaces an earlier one of its family.
   */
  lemma StartedPrankGoverns(cfg: Config, start: Cheat, c: Code, l: Local)
    requires start.StartPrankCmd? && Family(l.frame.prank, start.broadcast)
    requires Undisturbed(c) && Exec(cfg, Do(start, c), l).Ok?
    ensures StartPrankError(l.frame, start.broadcast) == None
    ensures var ps := Governing(cfg, Do(start, c), l);
            && (ps != [] ==> IsPrank(ps[0], start) && ps[0].value.prevOrigin == l.world.origin)
            && (forall i :: 0 < i < |ps| ==> ps[i] == if start.repeat then ps[0] else None)
    ensures var p := Exec(cfg, Do(start, c), l).value.frame.prank;
            if start.repeat || Governing(cfg, Do(start, c), l) == [] then IsPrank(p, start) else p == None
  {
    var l1 := ApplyLocal(l, start);
    if start.repeat {
      RepeatingPrankGovernsAll(cfg, c, l1);
    } else {
      SinglePrankGovernsNext(cfg, c, l1);
    }
  }

  /** A frame that has a prank of the other family keeps it. */
  lemma RefusedStartChangesNothing(cfg: Config, start: Cheat, c: Code, l: Local)
    requires start.StartPrankCmd? && !Family(l.frame.prank, start.broadcast)
    ensures StartPrankError(l.frame, start.broadcast) == Some(if start.broadcast then ActivePrank else ActiveBroadcast)
    ensures Exec(cfg, Do(start, c), l) == Exec(cfg, c, l)
    ensures Governing(cfg, Do(start, c), l) == Governing(cfg, c, l)
  {
  }

  /**
   After startPrank or startBroadcast with a sender, every frame that the frame calls or creates sees
   that sender as its caller.
   */
  lemma {:induction false} StartedSenderIsSeen(cfg: Config, start: Cheat, c: Code, l: Local, i: nat)
    requires start.StartPrankCmd? && start.sender.Some? && start.repeat && Family(l.frame.prank, start.broadcast)
    requires Undisturbed(c) && Faithful(cfg, Do(start, c), l) && Exec(cfg, Do(start, c), l).Ok?
    requires i < |Children(c)| && Children(c)[i].op in {CALL, CREATE}
    ensures Children(c)[i].body.Framed? && Children(c)[i].body.scope.caller == start.sender.value
  {
    hide Governing, Exec, Faithful;
    ChildrenAreFramed(c);
    StartedPrankGoverns(cfg, start, c, l);
    GovernedCallers(cfg, Do(start, c), l);
    assert SeesCaller(cfg, Governing(cfg, Do(start, c), l)[i], Children(Do(start, c))[i], l.frame.ctx.address);
  }

  lemma {:induction false} ChildrenAreFramed(c: Code)
    ensures forall i :: 0 <= i < |Children(c)| ==> Children(c)[i].body.Framed?
  {
    match c
    case Done =>
    case Plain(_, _, _, next) => ChildrenAreFramed(next);
    case Sub(_, next) => ChildrenAreFramed(next);
    case Do(_, next) => ChildrenAreFramed(next);
  }

  // ---------- stopping ----------

  /** Stopping stops: no child frame is governed by a prank of that family any more. */
  lemma StoppedPrankGovernsNothing(cfg: Config, broadcast: bool, c: Code, l: Local)
    requires Family(l.frame.prank, broadcast)
    requires Undisturbed(c) && Exec(cfg, Do(StopPrankCmd(broadcast), c), l).Ok?
    ensures StopPrankError(l.frame, broadcast)
         == if broadcast && l.frame.prank.None? then Some(NoBroadcastToStop) else None
    ensures var ps := Governing(cfg, Do(StopPrankCmd(broadcast), c), l);
            forall i :: 0 <= i < |ps| ==> ps[i] == None
    ensures Exec(cfg, Do(StopPrankCmd(broadcast), c), l).value.frame.prank == None
  {
    SinglePrankGovernsNext(cfg, c, ApplyLocal(l, StopPrankCmd(broadcast)));
  }

  /** Stopping the other family is silent or refused, and changes nothing. */
  lemma StoppingTheOtherChangesNothing(cfg: Config, broadcast: bool, c: Code, l: Local)
    requires !Family(l.frame.prank, broadcast)
    ensures StopPrankError(l.frame, broadcast) == if broadcast then Some(NoBroadcastToStop) else None
    ensures Exec(cfg, Do(StopPrankCmd(broadcast), c), l) == Exec(cfg, c, l)
    ensures Governing(cfg, Do(StopPrankCmd(broadcast), c), l) == Governing(cfg, c, l)
  {
  }

  /** After stopPrank or stopBroadcast every frame that the frame calls or creates sees the frame itself. */
  lemma {:induction false} StoppedSelfIsSeen(cfg: Config, broadcast: bool, c: Code, l: Local, i: nat)
    requires Family(l.frame.prank, broadcast)
    requires var stop := Do(StopPrankCmd(broadcast), c);
             Undisturbed(c) && Faithful(cfg, stop, l) && Exec(cfg, stop, l).Ok?
    requires i < |Children(c)| && Children(c)[i].op in {CALL, CREATE, CREATE2}
    ensures Children(c)[i].body.Framed? && Children(c)[i].body.scope.caller == l.frame.ctx.address
  {
    hide Governing, Exec, Faithful;
    var stop := Do(StopPrankCmd(broadcast), c);
    ChildrenAreFramed(c);
    StoppedPrankGovernsNothing(cfg, broadcast, c, l);
    GovernedCallers(cfg, stop, l);
    assert SeesCaller(cfg, Governing(cfg, stop, l)[i], Children(stop)[i], l.frame.ctx.address);
  }
}
