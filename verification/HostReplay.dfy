/**
 What replaying the broadcasts of a run as transactions needs: every nonce that a sender passes during
 the run belongs to one of its transactions.

 The sender of a broadcast CALL or CREATE2 is bumped by the Host, that of a broadcast CREATE by the EVM.
 Each account's nonce is accounted for, unit by unit: recorded broadcasts, bumps for sub-calls that open
 no frame and hence leave no record, and writes by anyone else.
 */
module HostReplay {
  import opened Prelude
  import opened HostState
  import opened HostTrace
  import opened HostBroadcast
  import opened HostNonces

  /** The closing of a broadcast by one of `ops` on behalf of `a`. */
  predicate Charges(k: Closing, a: Address, ops: set<Op>) {
    Eligible(k) && k.parent.lastOp in ops && BroadcastSender(k.parent) == a
  }

  /** How many broadcasts by `ops` the closings record on behalf of `a`. */
  function Recorded(cs: seq<Closing>, a: Address, ops: set<Op>): nat {
    if cs == [] then 0 else (if Charges(cs[0], a, ops) then 1 else 0) + Recorded(cs[1..], a, ops)
  }

  /** A CALL or CREATE2 made while `f` broadcasts for `a`, to neither the cheatcode nor the console address. */
  predicate BroadcastFor(c: Call, f: Frame, a: Address) {
    && c.op in {CALL, CREATE2}
    && c.to !in {VM_ADDR, CONSOLE_ADDR}
    && f.prank.Some? && f.prank.value.broadcast
    && a == if f.prank.value.sender.Some? then f.prank.value.sender.value else f.ctx.address
  }

  /** A sub-call that opens no frame although the Host bumps `a` for it. */
  predicate FramelessBump(c: Call, f: Frame, a: Address) {
    c.body.NoFrame? && BroadcastFor(c, f, a)
  }

  /** How often the Host bumps `a` for sub-calls that open no frame. */
  function FramelessBumps(cfg: Config, c: Code, l: Local, a: Address): nat {
    match c
    case Done => 0
    case Plain(pc, op, salt, next) => FramelessBumps(cfg, next, ObserveLocal(l, pc, op, salt), a)
    case Sub(call, next) =>
      (if FramelessBump(call, l.frame, a) then 1 else 0)
      + (if call.body.Framed? then FramelessBumps(cfg, call.body.code, Child(Entry(cfg, call, l), call.body), a) else 0)
      + (if ExecSub(cfg, call, l).Ok? then FramelessBumps(cfg, next, ExecSub(cfg, call, l).value, a) else 0)
    case Do(cheat, next) => FramelessBumps(cfg, next, ApplyLocal(l, cheat), a)
  }

  function Growth(m0: Nonces, m1: Nonces, a: Address): int {
    NonceOf(m1, a) - NonceOf(m0, a)
  }

  /** A creation that is broadcast on behalf of `a`: its sender's nonce is raised by the EVM. */
  predicate OwnCreation(c: Call, f: Frame, a: Address) {
    && c.body.Framed? && c.op == CREATE
    && f.prank.Some? && f.prank.value.broadcast
    && BroadcastSender(f) == a
  }

  /** What all other writes add to the nonce of `a`. */
  function OtherWrites(cfg: Config, c: Code, l: Local, a: Address): int {
    match c
    case Done => 0
    case Plain(pc, op, salt, next) => OtherWrites(cfg, next, ObserveLocal(l, pc, op, salt), a)
    case Sub(call, next) =>
      Growth(AfterEnter(cfg, call, l).world.nonces, Entry(cfg, call, l).world.nonces, a)
      - (if OwnCreation(call, l.frame, a) then 1 else 0)
      + (if call.body.Framed? then OtherWrites(cfg, call.body.code, Child(Entry(cfg, call, l), call.body), a) else 0)
      + (if ExecSub(cfg, call, l).Ok? then OtherWrites(cfg, next, ExecSub(cfg, call, l).value, a) else 0)
    case Do(cheat, next) =>
      Growth(l.world.nonces, ApplyWorld(l.world, cheat).nonces, a) + OtherWrites(cfg, next, ApplyLocal(l, cheat), a)
  }

  /** The Host's precompiles stand at the cheatcode and console addresses, so no frame opens there. */
  predicate PrecompilesStand(c: Code) {
    match c
    case Done => true
    case Plain(_, _, _, next) => PrecompilesStand(next)
    case Sub(call, next) =>
      && (call.body.Framed? ==> call.to !in {VM_ADDR, CONSOLE_ADDR} && PrecompilesStand(call.body.code))
      && PrecompilesStand(next)
    case Do(_, next) => PrecompilesStand(next)
  }

  const BROADCAST_OPS: set<Op> := {CALL, CREATE, CREATE2}

  lemma {:induction false} RecordedConcat(x: seq<Closing>, y: seq<Closing>, a: Address, ops: set<Op>)
    ensures Recorded(x + y, a, ops) == Recorded(x, a, ops) + Recorded(y, a, ops)
    decreases |x|
  {
    if x == [] {
      assert x + y == y;
    } else {
      assert (x + y)[1..] == x[1..] + y;
      RecordedConcat(x[1..], y, a, ops);
    }
  }

  /** Modulo 2^64 the entry hook raises the nonces for which the sub-call is broadcast, and no other. */
  lemma HookBumps(cfg: Config, c: Call, l: Local, a: Address)
    ensures Nonce(AfterEnter(cfg, c, l).world, a)
         == if BroadcastFor(c, l.frame, a) then (Nonce(l.world, a) + 1) % TWO_64 else Nonce(l.world, a)
  {
  }

  /** Without wrap-around the entry hook advances exactly the sender of a broadcast CALL or CREATE2, by one. */
  lemma HookGrowth(cfg: Config, c: Call, l: Local, a: Address)
    requires NoLower(l.world.nonces, AfterEnter(cfg, c, l).world.nonces)
    ensures Growth(l.world.nonces, AfterEnter(cfg, c, l).world.nonces, a)
         == if BroadcastFor(c, l.frame, a) then 1 else 0
  {
    assert NonceOf(l.world.nonces, a) <= NonceOf(AfterEnter(cfg, c, l).world.nonces, a);
  }

  /** Entering a framed sub-call advances `a` by one if it is a broadcast of `a`, and by what others write. */
  lemma FramedEntryGrowth(cfg: Config, c: Call, l: Local, done: Frame, a: Address)
    requires c.body.Framed? && EvmCall(cfg, c, l) && c.to !in {VM_ADDR, CONSOLE_ADDR}
    requires NoLower(l.world.nonces, AfterEnter(cfg, c, l).world.nonces)
    requires NoLower(AfterEnter(cfg, c, l).world.nonces, Entry(cfg, c, l).world.nonces)
    ensures Growth(AfterEnter(cfg, c, l).world.nonces, Entry(cfg, c, l).world.nonces, a)
         >= (if OwnCreation(c, l.frame, a) then 1 else 0)
    ensures Growth(l.world.nonces, Entry(cfg, c, l).world.nonces, a)
         == (if Charges(Closing(Entry(cfg, c, l).frame, done), a, BROADCAST_OPS) then 1 else 0)
            + Growth(AfterEnter(cfg, c, l).world.nonces, Entry(cfg, c, l).world.nonces, a)
            - (if OwnCreation(c, l.frame, a) then 1 else 0)
  {
    FramedEntry(cfg, c, l);
    HookGrowth(cfg, c, l, a);
    GrowthOf(AfterEnter(cfg, c, l).world.nonces, Entry(cfg, c, l).world.nonces, a);
    hide AfterEnter, Entry, NoLower;
    if OwnCreation(c, l.frame, a) {
      assert c.body.scope.caller == a;
    }
  }

  lemma GrowthOf(m0: Nonces, m1: Nonces, a: Address)
    requires NoLower(m0, m1)
    ensures Growth(m0, m1, a) >= 0
  {
    assert NonceOf(m0, a) <= NonceOf(m1, a);
  }

  lemma CloseKeepsNonces(cfg: Config, parent: Frame, child: Local, gas: U64)
    requires Close(cfg, parent, child, gas).Ok?
    ensures Close(cfg, parent, child, gas).value.world.nonces == child.world.nonces
  {
  }

  /**
   Whatever raises a nonce during a run is a recorded broadcast of that account, a bump for a frameless
   sub-call, or a write by somebody else.
   */
  lemma {:induction false} NonceLedger(cfg: Config, c: Code, l: Local, a: Address)
    requires Faithful(cfg, c, l) && NoncesGrow(cfg, c, l) && PrecompilesStand(c) && Exec(cfg, c, l).Ok?
    ensures Nonce(Exec(cfg, c, l).value.world, a)
         == Nonce(l.world, a) + Recorded(Closings(cfg, c, l), a, BROADCAST_OPS)
            + FramelessBumps(cfg, c, l, a) + OtherWrites(cfg, c, l, a)
    ensures OtherWrites(cfg, c, l, a) >= 0
    decreases c
  {
    hide Entry, AfterEnter, EvmCall, Charges, NoLower, Close;
    match c
    case Done =>
    case Plain(pc, op, salt, next) => NonceLedger(cfg, next, ObserveLocal(l, pc, op, salt), a);
    case Sub(call, next) =>
      var e, l1 := Entry(cfg, call, l), ExecSub(cfg, call, l).value;
      NonceLedger(cfg, next, l1, a);
      RecordedConcat(SubClosings(cfg, call, l), Closings(cfg, next, l1), a, BROADCAST_OPS);
      if call.body.Framed? {
        var child := Child(e, call.body);
        var done := Exec(cfg, call.body.code, child).value;
        var k := Closing(e.frame, AddGas(done.frame, call.gas));
        NonceLedger(cfg, call.body.code, child, a);
        FramedEntryGrowth(cfg, call, l, k.child, a);
        CloseKeepsNonces(cfg, e.frame, done, call.gas);
        RecordedConcat(Closings(cfg, call.body.code, child), [k], a, BROADCAST_OPS);
      } else {
        HookGrowth(cfg, call, l, a);
        GrowthOf(AfterEnter(cfg, call, l).world.nonces, e.world.nonces, a);
      }
    case Do(cheat, next) =>
      NonceLedger(cfg, next, ApplyLocal(l, cheat), a);
      GrowthOf(l.world.nonces, ApplyWorld(l.world, cheat).nonces, a);
  }

  /** Every sub-call without a frame goes to the cheatcode or the console address. */
  predicate OnlyPrecompiles(c: Code) {
    match c
    case Done => true
    case Plain(_, _, _, next) => OnlyPrecompiles(next)
    case Sub(call, next) =>
      && (match call.body
          case NoFrame(_) => call.to in {VM_ADDR, CONSOLE_ADDR}
          case Framed(_, _, _, _, _, code) => OnlyPrecompiles(code))
      && OnlyPrecompiles(next)
    case Do(_, next) => OnlyPrecompiles(next)
  }

  /** Cheatcode and console calls are not transactions: a run with no other frameless sub-calls bumps nothing for them. */
  lemma {:induction false} PrecompileCallsBumpNothing(cfg: Config, c: Code, l: Local, a: Address)
    requires OnlyPrecompiles(c)
    ensures FramelessBumps(cfg, c, l, a) == 0
    decreases c
  {
    hide Entry, ExecSub;
    match c
    case Done =>
    case Plain(pc, op, salt, next) => PrecompileCallsBumpNothing(cfg, next, ObserveLocal(l, pc, op, salt), a);
    case Sub(call, next) =>
      if call.body.Framed? {
        PrecompileCallsBumpNothing(cfg, call.body.code, Child(Entry(cfg, call, l), call.body), a);
      }
      if ExecSub(cfg, call, l).Ok? {
        PrecompileCallsBumpNothing(cfg, next, ExecSub(cfg, call, l).value, a);
      }
    case Do(cheat, next) => PrecompileCallsBumpNothing(cfg, next, ApplyLocal(l, cheat), a);
  }

  // ---------- gaps ----------

  /** A CALL or CREATE record of sender `a`. */
  predicate RecordOf(b: Broadcast, a: Address) {
    Numbered(b) && b.from == a
  }

  ghost predicate Carried(bs: seq<Broadcast>, a: Address, n: nat) {
    exists i :: 0 <= i < |bs| && RecordOf(bs[i], a) && bs[i].nonce == n
  }

  /** Every nonce from `lo` up to `hi` is the nonce of one of the sender's records. */
  ghost predicate NoGap(bs: seq<Broadcast>, a: Address, lo: nat, hi: nat) {
    forall n :: lo <= n < hi ==> Carried(bs, a, n)
  }

  function CountOf(bs: seq<Broadcast>, a: Address): nat {
    if bs == [] then 0 else (if RecordOf(bs[0], a) then 1 else 0) + CountOf(bs[1..], a)
  }

  function NoncesIn(bs: seq<Broadcast>, a: Address): set<nat> {
    if bs == [] then {} else (if RecordOf(bs[0], a) then {bs[0].nonce} else {}) + NoncesIn(bs[1..], a)
  }

  /** The numbers from `lo` up to `hi`. */
  function Range(lo: nat, hi: nat): (r: set<nat>)
    requires lo <= hi
    ensures forall n :: n in r <==> lo <= n < hi
    ensures |r| == hi - lo
    decreases hi - lo
  {
    if lo == hi then {} else Range(lo, hi - 1) + {hi - 1}
  }

  lemma {:induction false} CountConcat(x: seq<Broadcast>, y: seq<Broadcast>, a: Address)
    ensures CountOf(x + y, a) == CountOf(x, a) + CountOf(y, a)
    decreases |x|
  {
    if x == [] {
      assert x + y == y;
    } else {
      assert (x + y)[1..] == x[1..] + y;
      CountConcat(x[1..], y, a);
    }
  }

  lemma {:induction false} NoncesAreCarried(bs: seq<Broadcast>, a: Address, n: nat)
    ensures n in NoncesIn(bs, a) <==> Carried(bs, a, n)
    decreases |bs|
  {
    if bs != [] {
      NoncesAreCarried(bs[1..], a, n);
      if Carried(bs, a, n) {
        var i :| 0 <= i < |bs| && RecordOf(bs[i], a) && bs[i].nonce == n;
        assert i > 0 ==> RecordOf(bs[1..][i - 1], a);
      }
    }
  }

  /** Records with distinct nonces carry as many nonces as there are records. */
  lemma {:induction false} DistinctAreCounted(bs: seq<Broadcast>, a: Address)
    requires DistinctNonces(bs)
    ensures |NoncesIn(bs, a)| == CountOf(bs, a)
    decreases |bs|
  {
    if bs != [] {
      DistinctAreCounted(bs[1..], a);
      if RecordOf(bs[0], a) {
        NoncesAreCarried(bs[1..], a, bs[0].nonce);
      }
    }
  }

  lemma {:induction false} SubsetSize(x: set<nat>, y: set<nat>)
    requires x <= y
    ensures |x| <= |y| && (|x| == |y| ==> x == y)
  {
    assert y == x + (y - x);
  }

  /** Numbers from a range leave no gap in it exactly when there are as many as the range is long. */
  lemma {:induction false} FillsRange(x: set<nat>, lo: nat, hi: nat)
    requires lo <= hi && forall n :: n in x ==> lo <= n < hi
    ensures (forall n :: lo <= n < hi ==> n in x) <==> |x| == hi - lo
  {
    SubsetSize(x, Range(lo, hi));
    if forall n :: lo <= n < hi ==> n in x {
      assert x == Range(lo, hi);
    }
  }

  /** Distinct nonces within a range leave no gap exactly when there are as many as the range is long. */
  lemma GapsByCounting(bs: seq<Broadcast>, a: Address, m0: Nonces, m1: Nonces)
    requires Unique(bs, m0, m1)
    ensures NoGap(bs, a, NonceOf(m0, a), NonceOf(m1, a)) <==> CountOf(bs, a) == NonceOf(m1, a) - NonceOf(m0, a)
  {
    var lo, hi, x := NonceOf(m0, a), NonceOf(m1, a), NoncesIn(bs, a);
    forall n: nat ensures n in x <==> Carried(bs, a, n) {
      NoncesAreCarried(bs, a, n);
    }
    DistinctAreCounted(bs, a);
    hide NoncesIn, CountOf;
    FillsRange(x, lo, hi);
  }

  /** The record of a broadcast CALL or CREATE names the account that it is charged to. */
  lemma {:induction false} ClosingIsCharged(cfg: Config, c: Call, l: Local, done: Local, a: Address)
    requires c.body.Framed? && EvmCall(cfg, c, l)
    requires SameFrame(Child(Entry(cfg, c, l), c.body), done)
    ensures var k := Closing(Entry(cfg, c, l).frame, done.frame);
            CountOf(EmitOne(cfg, k), a) == if Charges(k, a, {CALL, CREATE}) then 1 else 0
  {
    FramedEntry(cfg, c, l);
    hide Entry, EvmCall;
    var k := Closing(Entry(cfg, c, l).frame, done.frame);
    if Eligible(k) {
      if c.op == CALL {
        CallBroadcastNonce(cfg, c, l, done);
      } else if c.op == CREATE {
        CreateBroadcastNonce(cfg, c, l, done);
      }
    }
    assert |EmitOne(cfg, k)| == 1 ==> EmitOne(cfg, k)[1..] == [];
  }

  lemma {:induction false} RecordsAreCharged(cfg: Config, c: Code, l: Local, a: Address)
    requires Faithful(cfg, c, l) && Exec(cfg, c, l).Ok?
    ensures CountOf(Emitted(cfg, Closings(cfg, c, l)), a) == Recorded(Closings(cfg, c, l), a, {CALL, CREATE})
    decreases c
  {
    hide Entry, EvmCall, EmitOne, Charges, Close;
    match c
    case Done =>
    case Plain(pc, op, salt, next) => RecordsAreCharged(cfg, next, ObserveLocal(l, pc, op, salt), a);
    case Sub(call, next) =>
      var e, l1 := Entry(cfg, call, l), ExecSub(cfg, call, l).value;
      var first, second := SubClosings(cfg, call, l), Closings(cfg, next, l1);
      RecordsAreCharged(cfg, next, l1, a);
      RecordedConcat(first, second, a, {CALL, CREATE});
      EmittedConcat(cfg, first, second);
      CountConcat(Emitted(cfg, first), Emitted(cfg, second), a);
      if call.body.Framed? {
        var child := Child(e, call.body);
        var done := Exec(cfg, call.body.code, child).value;
        var inner, k := Closings(cfg, call.body.code, child), Closing(e.frame, AddGas(done.frame, call.gas));
        RecordsAreCharged(cfg, call.body.code, child, a);
        ExecSameFrame(cfg, call.body.code, child);
        ClosingIsCharged(cfg, call, l, done.(frame := k.child), a);
        RecordedConcat(inner, [k], a, {CALL, CREATE});
        EmittedSnoc(cfg, inner, k);
        CountConcat(Emitted(cfg, inner), EmitOne(cfg, k), a);
      }
    case Do(cheat, next) => RecordsAreCharged(cfg, next, ApplyLocal(l, cheat), a);
  }

  lemma {:induction false} RecordedByKind(cs: seq<Closing>, a: Address)
    ensures Recorded(cs, a, BROADCAST_OPS) == Recorded(cs, a, {CALL, CREATE}) + Recorded(cs, a, {CREATE2})
    decreases |cs|
  {
    if cs != [] {
      RecordedByKind(cs[1..], a);
    }
  }

  /**
   The nonces of a sender's CALL and CREATE records run without a gap from its nonce before the run to its
   nonce after it exactly when nothing else advances it: no CREATE2 broadcast of its own, no broadcast
   sub-call without a frame, and no other write.
   */
  lemma {:induction false} NoncesHaveNoGap(cfg: Config, c: Code, l: Local, a: Address)
    requires Faithful(cfg, c, l) && NoncesGrow(cfg, c, l) && PrecompilesStand(c) && Exec(cfg, c, l).Ok?
    ensures NoGap(Emitted(cfg, Closings(cfg, c, l)), a, Nonce(l.world, a), Nonce(Exec(cfg, c, l).value.world, a))
       <==> && Recorded(Closings(cfg, c, l), a, {CREATE2}) == 0
            && FramelessBumps(cfg, c, l, a) == 0
            && OtherWrites(cfg, c, l, a) == 0
  {
    var cs := Closings(cfg, c, l);
    NonceLedger(cfg, c, l, a);
    RecordedByKind(cs, a);
    RecordsAreCharged(cfg, c, l, a);
    NoncesAreUnique(cfg, c, l);
    GapsByCounting(Emitted(cfg, cs), a, l.world.nonces, Exec(cfg, c, l).value.world.nonces);
  }

  /** The same for the hooks of a whole call from outside; one that does not panic has opened a frame. */
  lemma {:induction false} RootNoncesHaveNoGap(
    cfg: Config, w: World, typ: Op, to: Address, b: Body, gas: U64, a: Address)
    requires w.broadcasts == [] && b.Framed? && PrecompilesStand(b.code)
    requires Faithful(cfg, b.code, RootFrame(b, w)) && NoncesGrow(cfg, b.code, RootFrame(b, w))
    requires Run(cfg, State([], w), RootTrace(typ, to, b, gas)).Ok?
    ensures var root, end := RootFrame(b, w), Run(cfg, State([], w), RootTrace(typ, to, b, gas)).value.world;
            NoGap(end.broadcasts, a, Nonce(root.world, a), Nonce(end, a))
            <==> && Recorded(Closings(cfg, b.code, root), a, {CREATE2}) == 0
                 && FramelessBumps(cfg, b.code, root, a) == 0
                 && OtherWrites(cfg, b.code, root, a) == 0
  {
    hide Run, RootTrace, RootFrame, NoGap, OtherWrites, FramelessBumps;
    var root := RootFrame(b, w);
    assert root.world.broadcasts == [] by { RootStart(b, w); }
    RunRoot(cfg, w, typ, to, b, gas);
    RunBroadcasts(cfg, b.code, root);
    assert [] + Emitted(cfg, Closings(cfg, b.code, root)) == Emitted(cfg, Closings(cfg, b.code, root));
    NoncesHaveNoGap(cfg, b.code, root, a);
  }

  /**
   A broadcast CALL to an account without code, such as a plain transfer: its sender's nonce goes up by
   one, yet nothing is recorded, which leaves a gap, and even a single broadcast stays pending.
   */
  lemma FramelessBroadcastCall(cfg: Config, l: Local, to: Address)
    requires l.frame.prank.Some? && l.frame.prank.value.broadcast
    requires l.frame.ctx.address != VM_ADDR && to !in {VM_ADDR, CONSOLE_ADDR}
    ensures var c := Call(0, CALL, None, Some(l.frame.ctx.address), to, NoFrame([]), 0);
            var sender, r := BroadcastSender(l.frame), ExecSub(cfg, c, l);
            && r.Ok?
            && Nonce(r.value.world, sender) == (Nonce(l.world, sender) + 1) % TWO_64
            && r.value.world.broadcasts == l.world.broadcasts
            && SubClosings(cfg, c, l) == []
            && r.value.frame.prank == l.frame.prank
            && FramelessBumps(cfg, Sub(c, Done), l, sender) == 1
            && (Nonce(l.world, sender) < TWO_64 - 1 ==>
                  !NoGap(Emitted(cfg, Closings(cfg, Sub(c, Done), l)), sender, Nonce(l.world, sender),
                         Nonce(r.value.world, sender)))
  {
    var c, n := Call(0, CALL, None, Some(l.frame.ctx.address), to, NoFrame([]), 0), Nonce(l.world, BroadcastSender(l.frame));
    assert Closings(cfg, Sub(c, Done), l) == [];
    assert !Carried([], BroadcastSender(l.frame), n);
  }
}
