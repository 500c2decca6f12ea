/**
 When a run is free of panics, and which nonces its broadcasts carry.

 `Faithful` collects what the EVM promises about the frames it opens. Nothing is assumed about the
 script.
 */
module HostNonces {
  import opened Prelude
  import opened HostState
  import opened HostTrace
  import opened HostBroadcast

  // ---------- what the EVM promises ----------

  /** The caller of a CALL, CREATE or CREATE2 is the running contract, unless the Host overrides it. */
  predicate OverridesCaller(cfg: Config, c: Call, l: Local)
    requires c.body.Framed?
  {
    && c.caller == Some(l.frame.ctx.address)
    && c.caller.value != VM_ADDR
    && c.body.scope.caller == CallerOverride(cfg, AfterCaller(cfg, c, l).frame, c.caller.value)
  }

  /** What the EVM promises about one framed sub-call. */
  predicate EvmCall(cfg: Config, c: Call, l: Local)
    requires c.body.Framed?
  {
    var scope := c.body.scope;
    var before, after := Nonce(AfterEnter(cfg, c, l).world, scope.caller), Nonce(Entry(cfg, c, l).world, scope.caller);
    match c.op
    case CALL => OverridesCaller(cfg, c, l) && c.to !in {VM_ADDR, CONSOLE_ADDR} && after == before
    case CREATE =>
      && OverridesCaller(cfg, c, l)
      && after == before + 1
      && scope.address == cfg.createAddress(scope.caller, before)
    case CREATE2 =>
      && OverridesCaller(cfg, c, l)
      && (c.salt.Some? ==> scope.address == cfg.createAddress2(scope.caller, c.salt.value, cfg.keccak256(BroadcastInput(scope))))
    case _ => c.op in {DELEGATECALL, STATICCALL, CALLCODE}
  }

  predicate Faithful(cfg: Config, c: Code, l: Local) {
    match c
    case Done => true
    case Plain(pc, op, salt, next) => Short(op, salt) || Faithful(cfg, next, ObserveLocal(l, pc, op, salt))
    case Sub(call, next) =>
      && (Enters(call) ==>
            EvmCall(cfg, call, l) && Faithful(cfg, call.body.code, Child(Entry(cfg, call, l), call.body)))
      && (ExecSub(cfg, call, l).Ok? ==> Faithful(cfg, next, ExecSub(cfg, call, l).value))
    case Do(cheat, next) => Faithful(cfg, next, ApplyLocal(l, cheat))
  }

  // ---------- panics ----------

  /** CREATE2 is never reported on a short stack, and CALLCODE opens no frame while its parent broadcasts. */
  predicate PanicFree(cfg: Config, c: Code, l: Local) {
    match c
    case Done => true
    case Plain(pc, op, salt, next) => !Short(op, salt) && PanicFree(cfg, next, ObserveLocal(l, pc, op, salt))
    case Sub(call, next) =>
      && !Short(call.op, call.salt)
      && (call.body.Framed? ==>
            && !Short(call.body.op, call.body.salt)
            && !(call.op == CALLCODE && l.frame.prank.Some? && l.frame.prank.value.broadcast)
            && PanicFree(cfg, call.body.code, Child(Entry(cfg, call, l), call.body)))
      && (ExecSub(cfg, call, l).Ok? ==> PanicFree(cfg, next, ExecSub(cfg, call, l).value))
    case Do(cheat, next) => PanicFree(cfg, next, ApplyLocal(l, cheat))
  }

  /** The suspended caller of a framed callee is the caller right after its own opcode. */
  lemma FramedEntry(cfg: Config, c: Call, l: Local)
    requires c.body.Framed?
    ensures Entry(cfg, c, l).frame == ObserveOp(l.frame, c.pc, c.op, c.salt)
    ensures Entry(cfg, c, l).world == AfterEnter(cfg, c, l).world.(nonces := Entry(cfg, c, l).world.nonces)
  {
    WritesKeep(AfterEnter(cfg, c, l), c.body.writes);
  }

  /** Closing a child that the EVM opened panics exactly for CALLCODE under a broadcast. */
  lemma ClosePanics(cfg: Config, c: Call, l: Local, child: Local)
    requires c.body.Framed? && EvmCall(cfg, c, l) && !Short(c.op, c.salt)
    requires SameFrame(Child(Entry(cfg, c, l), c.body), child)
    ensures Close(cfg, Entry(cfg, c, l).frame, child, c.gas).Panic?
       <==> c.op == CALLCODE && l.frame.prank.Some? && l.frame.prank.value.broadcast
  {
    FramedEntry(cfg, c, l);
    var e := Entry(cfg, c, l);
    assert child.frame.callerNonce == Nonce(e.world, c.body.scope.caller);
    if c.op == CREATE {
      assert (child.frame.callerNonce - 1) % TWO_64 == Nonce(AfterEnter(cfg, c, l).world, c.body.scope.caller);
    }
  }

  /**
   With a faithful EVM the Host panics exactly when CREATE2 is reported on a short stack or CALLCODE opens a
   frame under an active broadcast.
   */
  lemma {:induction false} PanicsExactly(cfg: Config, c: Code, l: Local)
    requires Faithful(cfg, c, l)
    ensures Exec(cfg, c, l).Ok? <==> PanicFree(cfg, c, l)
    decreases c
  {
    match c
    case Done =>
    case Plain(pc, op, salt, next) =>
      if !Short(op, salt) {
        PanicsExactly(cfg, next, ObserveLocal(l, pc, op, salt));
      }
    case Sub(call, next) =>
      if Enters(call) {
        var child := Child(Entry(cfg, call, l), call.body);
        PanicsExactly(cfg, call.body.code, child);
        ExecSameFrame(cfg, call.body.code, child);
        if Exec(cfg, call.body.code, child).Ok? {
          ClosePanics(cfg, call, l, Exec(cfg, call.body.code, child).value);
        }
      }
      if ExecSub(cfg, call, l).Ok? {
        PanicsExactly(cfg, next, ExecSub(cfg, call, l).value);
      }
    case Do(cheat, next) => PanicsExactly(cfg, next, ApplyLocal(l, cheat));
  }

  /**
   A whole call from outside panics exactly when it opens no frame at all, or for one of the two reasons
   above, in its first opcode or later.
   */
  lemma {:induction false} RootPanics(cfg: Config, w: World, typ: Op, to: Address, b: Body, gas: U64)
    requires b.Framed? && !Short(b.op, b.salt) ==> Faithful(cfg, b.code, RootFrame(b, w))
    ensures Run(cfg, State([], w), RootTrace(typ, to, b, gas)).Panic?
       <==> b.NoFrame? || Short(b.op, b.salt) || !PanicFree(cfg, b.code, RootFrame(b, w))
  {
    hide Run, RootTrace, RootFrame;
    RunRoot(cfg, w, typ, to, b, gas);
    if b.Framed? && !Short(b.op, b.salt) {
      PanicsExactly(cfg, b.code, RootFrame(b, w));
    }
  }

  /** A contract whose code is the single byte 0xf5 makes the Host panic, with everything else in order. */
  lemma ShortStackPanics(cfg: Config, w: World, to: Address, from: Address, gas: U64)
    ensures var b := Framed([], Scope(0, to, from, None, [], [0xf5], false), 0, CREATE2, None, Done);
            && Faithful(cfg, b.code, RootFrame(b, w))
            && Run(cfg, State([], w), RootTrace(CALL, to, b, gas)) == Panic
  {
    var b := Framed([], Scope(0, to, from, None, [], [0xf5], false), 0, CREATE2, None, Done);
    RootPanics(cfg, w, CALL, to, b, gas);
  }

  /** A frame that broadcasts and runs code by CALLCODE makes the Host panic, with everything else in order. */
  lemma CallcodePanics(cfg: Config, l: Local, to: Address)
    requires l.frame.prank.Some? && l.frame.prank.value.broadcast
    ensures var scope := Scope(1, l.frame.ctx.address, l.frame.ctx.address, None, [], [], false);
            var c := Sub(Call(0, CALLCODE, None, None, to, Framed([], scope, 0, Other(0), None, Done), 0), Done);
            Faithful(cfg, c, l) && Exec(cfg, c, l) == Panic
  {
    var scope := Scope(1, l.frame.ctx.address, l.frame.ctx.address, None, [], [], false);
    var c := Sub(Call(0, CALLCODE, None, None, to, Framed([], scope, 0, Other(0), None, Done), 0), Done);
    PanicsExactly(cfg, c, l);
  }

  // ---------- nonces ----------

  ghost predicate NoLower(m0: Nonces, m1: Nonces) {
    forall a :: NonceOf(m0, a) <= NonceOf(m1, a)
  }

  /** No nonce is ever lowered: no rollback, no write of a smaller value, no wrap-around. */
  ghost predicate NoncesGrow(cfg: Config, c: Code, l: Local) {
    match c
    case Done => true
    case Plain(pc, op, salt, next) => Short(op, salt) || NoncesGrow(cfg, next, ObserveLocal(l, pc, op, salt))
    case Sub(call, next) =>
      && NoLower(l.world.nonces, AfterEnter(cfg, call, l).world.nonces)
      && NoLower(AfterEnter(cfg, call, l).world.nonces, Entry(cfg, call, l).world.nonces)
      && (Enters(call) ==> NoncesGrow(cfg, call.body.code, Child(Entry(cfg, call, l), call.body)))
      && (ExecSub(cfg, call, l).Ok? ==> NoncesGrow(cfg, next, ExecSub(cfg, call, l).value))
    case Do(cheat, next) =>
      NoLower(l.world.nonces, ApplyWorld(l.world, cheat).nonces) && NoncesGrow(cfg, next, ApplyLocal(l, cheat))
  }

  /**
   A CALL broadcast carries the nonce that its sender had just before the entry hook bumped it, and
   the sender is the account that was bumped.
   */
  lemma CallBroadcastNonce(cfg: Config, c: Call, l: Local, child: Local)
    requires c.body.Framed? && EvmCall(cfg, c, l) && c.op == CALL
    requires l.frame.prank.Some? && l.frame.prank.value.broadcast
    requires SameFrame(Child(Entry(cfg, c, l), c.body), child)
    ensures var r := NewBroadcast(cfg, Entry(cfg, c, l).frame, child.frame);
            && r.Ok?
            && r.value.kind == BroadcastCall
            && r.value.from == BroadcastSender(l.frame)
            && r.value.nonce == Nonce(l.world, r.value.from)
            && Nonce(Entry(cfg, c, l).world, r.value.from) == (r.value.nonce + 1) % TWO_64
  {
    FramedEntry(cfg, c, l);
    var sender := BroadcastSender(l.frame);
    var n := Nonce(l.world, sender);
    assert Nonce(AfterEnter(cfg, c, l).world, sender) == (n + 1) % TWO_64;
    assert c.body.scope.caller == sender;
    assert ((n + 1) % TWO_64 - 1) % TWO_64 == n;
  }

  /**
   A CREATE broadcast carries the nonce that its sender had before the EVM's own increment, which is the
   only one the sender gets for it.
   */
  lemma CreateBroadcastNonce(cfg: Config, c: Call, l: Local, child: Local)
    requires c.body.Framed? && EvmCall(cfg, c, l) && c.op == CREATE
    requires l.frame.prank.Some? && l.frame.prank.value.broadcast
    requires SameFrame(Child(Entry(cfg, c, l), c.body), child)
    ensures var r := NewBroadcast(cfg, Entry(cfg, c, l).frame, child.frame);
            && r.Ok?
            && r.value.kind == BroadcastCreate
            && r.value.from == BroadcastSender(l.frame)
            && r.value.nonce == Nonce(l.world, r.value.from)
            && Nonce(Entry(cfg, c, l).world, r.value.from) == r.value.nonce + 1
  {
    FramedEntry(cfg, c, l);
    var n := Nonce(l.world, BroadcastSender(l.frame));
    assert AfterEnter(cfg, c, l).world.nonces == l.world.nonces;
    assert c.body.scope.caller == BroadcastSender(l.frame);
    assert ((n + 1) - 1) % TWO_64 == n;
  }

  /** The nonce of a CREATE2 record is always zero and means nothing. */
  predicate Numbered(b: Broadcast) {
    b.kind != BroadcastCreate2
  }

  /** The numbered broadcasts in `bs` carry nonces that their senders passed between `m0` and `m1`. */
  ghost predicate Within(bs: seq<Broadcast>, m0: Nonces, m1: Nonces) {
    forall i :: 0 <= i < |bs| && Numbered(bs[i]) ==>
      NonceOf(m0, bs[i].from) <= bs[i].nonce < NonceOf(m1, bs[i].from)
  }

  /** No two CALL or CREATE broadcasts in `bs` share both sender and nonce. */
  ghost predicate DistinctNonces(bs: seq<Broadcast>) {
    forall i, j ::
      0 <= i < j < |bs| && Numbered(bs[i]) && Numbered(bs[j]) && bs[i].from == bs[j].from ==>
        bs[i].nonce != bs[j].nonce
  }

  ghost predicate Unique(bs: seq<Broadcast>, m0: Nonces, m1: Nonces) {
    NoLower(m0, m1) && Within(bs, m0, m1) && DistinctNonces(bs)
  }

  lemma NoLowerTrans(m0: Nonces, m1: Nonces, m2: Nonces)
    requires NoLower(m0, m1) && NoLower(m1, m2)
    ensures NoLower(m0, m2)
  {
  }

  lemma UniqueConcat(a: seq<Broadcast>, b: seq<Broadcast>, m0: Nonces, m1: Nonces, m2: Nonces)
    requires Unique(a, m0, m1) && Unique(b, m1, m2)
    ensures Unique(a + b, m0, m2)
  {
  }

  /** A broadcast whose sender was bumped past its nonce before `bs` started may follow `bs`. */
  lemma UniqueSnoc(bs: seq<Broadcast>, last: seq<Broadcast>, m0: Nonces, m1: Nonces, m2: Nonces)
    requires NoLower(m0, m1) && Unique(bs, m1, m2)
    requires |last| <= 1 && Within(last, m0, m1)
    ensures Unique(bs + last, m0, m2)
  {
  }

  /** A finished child's broadcast carries a nonce that its sender passed while the child was entered. */
  lemma {:induction false} ClosingNonce(cfg: Config, c: Call, l: Local, done: Local)
    requires c.body.Framed? && EvmCall(cfg, c, l)
    requires NoLower(l.world.nonces, Entry(cfg, c, l).world.nonces)
    requires SameFrame(Child(Entry(cfg, c, l), c.body), done)
    ensures Within(EmitOne(cfg, Closing(Entry(cfg, c, l).frame, done.frame)), l.world.nonces,
                   Entry(cfg, c, l).world.nonces)
  {
    FramedEntry(cfg, c, l);
    hide Entry, EvmCall, NewBroadcast;
    if Eligible(Closing(Entry(cfg, c, l).frame, done.frame)) {
      var sender := BroadcastSender(l.frame);
      if c.op == CALL {
        CallBroadcastNonce(cfg, c, l, done);
        assert NonceOf(l.world.nonces, sender) <= NonceOf(Entry(cfg, c, l).world.nonces, sender);
      } else if c.op == CREATE {
        CreateBroadcastNonce(cfg, c, l, done);
      }
    }
  }

  lemma {:induction false} SubNonces(cfg: Config, c: Call, l: Local)
    requires c.body.Framed? && EvmCall(cfg, c, l)
    requires ExecSub(cfg, c, l).Ok?
    requires NoLower(l.world.nonces, Entry(cfg, c, l).world.nonces)
    requires var child := Child(Entry(cfg, c, l), c.body);
             Unique(Emitted(cfg, Closings(cfg, c.body.code, child)), child.world.nonces,
                    Exec(cfg, c.body.code, child).value.world.nonces)
    ensures Unique(Emitted(cfg, SubClosings(cfg, c, l)), l.world.nonces, ExecSub(cfg, c, l).value.world.nonces)
  {
    hide Entry, EvmCall, EmitOne, NewBroadcast, NoLower, Within, DistinctNonces;
    var e := Entry(cfg, c, l);
    var child := Child(e, c.body);
    var done := Exec(cfg, c.body.code, child).value;
    var inner := Emitted(cfg, Closings(cfg, c.body.code, child));
    var k := Closing(e.frame, AddGas(done.frame, c.gas));
    ExecSameFrame(cfg, c.body.code, child);
    ClosingNonce(cfg, c, l, done.(frame := k.child));
    EmittedSnoc(cfg, Closings(cfg, c.body.code, child), k);
    UniqueSnoc(inner, EmitOne(cfg, k), l.world.nonces, e.world.nonces, done.world.nonces) by {
      assert |EmitOne(cfg, k)| <= 1 by { EmitsAtMostOne(cfg, k); }
    }
  }

  lemma EmitsAtMostOne(cfg: Config, k: Closing)
    ensures |EmitOne(cfg, k)| <= 1
  {
  }

  /**
   In a run that never lowers a nonce, no two CALL or CREATE broadcasts of one sender share a nonce,
   however the broadcasts nest.
   */
  lemma {:induction false} NoncesAreUnique(cfg: Config, c: Code, l: Local)
    requires Faithful(cfg, c, l) && NoncesGrow(cfg, c, l) && Exec(cfg, c, l).Ok?
    ensures Unique(Emitted(cfg, Closings(cfg, c, l)), l.world.nonces, Exec(cfg, c, l).value.world.nonces)
    decreases c
  {
    match c
    case Done =>
    case Plain(pc, op, salt, next) => NoncesAreUnique(cfg, next, ObserveLocal(l, pc, op, salt));
    case Sub(call, next) =>
      var e, l1 := Entry(cfg, call, l), ExecSub(cfg, call, l).value;
      NoLowerTrans(l.world.nonces, AfterEnter(cfg, call, l).world.nonces, e.world.nonces);
      if call.body.Framed? {
        NoncesAreUnique(cfg, call.body.code, Child(e, call.body));
        SubNonces(cfg, call, l);
      }
      NoncesAreUnique(cfg, next, l1);
      EmittedConcat(cfg, SubClosings(cfg, call, l), Closings(cfg, next, l1));
      UniqueConcat(Emitted(cfg, SubClosings(cfg, call, l)), Emitted(cfg, Closings(cfg, next, l1)),
                   l.world.nonces, l1.world.nonces, Exec(cfg, next, l1).value.world.nonces);
    case Do(cheat, next) =>
      NoncesAreUnique(cfg, next, ApplyLocal(l, cheat));
      var bs, m := Emitted(cfg, Closings(cfg, next, ApplyLocal(l, cheat))), ApplyWorld(l.world, cheat).nonces;
      UniqueConcat([], bs, l.world.nonces, m, Exec(cfg, c, l).value.world.nonces);
      assert [] + bs == bs;
  }

  /** A whole call from outside: what its hooks hand to the broadcast hook never reuses a nonce. */
  lemma {:induction false} RootNonces(cfg: Config, w: World, typ: Op, to: Address, b: Body, gas: U64)
    requires w.broadcasts == [] && Run(cfg, State([], w), RootTrace(typ, to, b, gas)).Ok?
    requires b.Framed? ==> Faithful(cfg, b.code, RootFrame(b, w)) && NoncesGrow(cfg, b.code, RootFrame(b, w))
    ensures var r := Run(cfg, State([], w), RootTrace(typ, to, b, gas));
            r.value.stack == [] && DistinctNonces(r.value.world.broadcasts)
  {
    hide Run, RootTrace, RootFrame, DistinctNonces;
    RunRoot(cfg, w, typ, to, b, gas);
    var root := RootFrame(b, w);
    assert root.world.broadcasts == [] by { RootStart(b, w); }
    NoncesAreUnique(cfg, b.code, root);
    RunBroadcasts(cfg, b.code, root);
    assert [] + Emitted(cfg, Closings(cfg, b.code, root)) == Emitted(cfg, Closings(cfg, b.code, root));
  }

  lemma RootStart(b: Body, w: World)
    requires b.Framed?
    ensures RootFrame(b, w).world.broadcasts == w.broadcasts
  {
    OutsideWritesKeep(w, b.writes);
  }

  /** A call that runs no code of its own beyond one opcode, from `sender`. */
  function EmptyCall(self: Address, sender: Address, to: Address): Call {
    Call(0, CALL, None, Some(self), to, Framed([], Scope(1, to, sender, None, [], [], false), 0, Other(0), None, Done), 0)
  }

  /** One broadcast CALL: it emits the sender's nonce and leaves it one higher; the broadcast stays on. */
  lemma OneBroadcastCall(cfg: Config, l: Local, sender: Address, to: Address)
    requires l.frame.prank.Some? && l.frame.prank.value.broadcast && l.frame.prank.value.repeat
    requires l.frame.prank.value.sender == Some(sender)
    requires l.frame.ctx.address != VM_ADDR && to !in {VM_ADDR, CONSOLE_ADDR}
    ensures var c := EmptyCall(l.frame.ctx.address, sender, to);
            var r := ExecSub(cfg, c, l);
            && r.Ok? && SameFrame(l, r.value) && r.value.frame.prank == l.frame.prank
            && |Emitted(cfg, SubClosings(cfg, c, l))| == 1
            && var b := Emitted(cfg, SubClosings(cfg, c, l))[0];
               b.kind == BroadcastCall && b.from == sender && b.nonce == Nonce(l.world, sender)
  {
    var c := EmptyCall(l.frame.ctx.address, sender, to);
    var e := Entry(cfg, c, l);
    var child := Child(e, c.body);
    FramedEntry(cfg, c, l);
    assert Entry(cfg, c, l) == AfterEnter(cfg, c, l) by {
      assert Writes([]) == [];
    }
    CallBroadcastNonce(cfg, c, l, child.(frame := AddGas(child.frame, c.gas)));
    EmittedSnoc(cfg, [], Closing(e.frame, AddGas(child.frame, c.gas)));
    assert [] + [Closing(e.frame, AddGas(child.frame, c.gas))] == [Closing(e.frame, AddGas(child.frame, c.gas))];
  }

  /** The first broadcast of an account that never had a nonce carries nonce 0. */
  lemma FreshSenderStartsAtZero(cfg: Config, l: Local, sender: Address, to: Address)
    requires l.frame.prank.Some? && l.frame.prank.value.broadcast && l.frame.prank.value.repeat
    requires l.frame.prank.value.sender == Some(sender) && sender !in l.world.nonces
    requires l.frame.ctx.address != VM_ADDR && to !in {VM_ADDR, CONSOLE_ADDR}
    ensures var bs := Emitted(cfg, SubClosings(cfg, EmptyCall(l.frame.ctx.address, sender, to), l));
            |bs| == 1 && bs[0].from == sender && bs[0].nonce == 0
  {
    OneBroadcastCall(cfg, l, sender, to);
  }

  /**
   Rolling a nonce back is enough to break uniqueness: two broadcast calls with the sender's nonce
   restored in between carry the same nonce.
   */
  lemma RollbackReusesNonce(cfg: Config, l: Local, sender: Address, to: Address)
    requires l.frame.prank.Some? && l.frame.prank.value.broadcast && l.frame.prank.value.repeat
    requires l.frame.prank.value.sender == Some(sender)
    requires l.frame.ctx.address != VM_ADDR && to !in {VM_ADDR, CONSOLE_ADDR}
    ensures var c := EmptyCall(l.frame.ctx.address, sender, to);
            var run := Sub(c, Do(WriteNonce(sender, Nonce(l.world, sender)), Sub(c, Done)));
            Exec(cfg, run, l).Ok? && !DistinctNonces(Emitted(cfg, Closings(cfg, run, l)))
  {
    hide ExecSub, SubClosings, EmptyCall;
    var c := EmptyCall(l.frame.ctx.address, sender, to);
    var reset := WriteNonce(sender, Nonce(l.world, sender));
    OneBroadcastCall(cfg, l, sender, to);
    var l1 := ApplyLocal(ExecSub(cfg, c, l).value, reset);
    OneBroadcastCall(cfg, l1, sender, to);
    var first, second := SubClosings(cfg, c, l), SubClosings(cfg, c, l1);
    assert Exec(cfg, Sub(c, Done), l1) == ExecSub(cfg, c, l1);
    assert Closings(cfg, Sub(c, Done), l1) == second + [];
    assert Closings(cfg, Sub(c, Do(reset, Sub(c, Done))), l) == first + (second + []);
    assert second + [] == second;
    EmittedConcat(cfg, first, second);
    var bs := Emitted(cfg, first + second);
    assert bs[0].kind == BroadcastCall && bs[1].kind == BroadcastCall && bs[0].nonce == bs[1].nonce;
  }
}
