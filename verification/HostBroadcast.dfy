/**
 Which transactions a run hands to the broadcast hook, in which order, and with which gas.
 */
module HostBroadcast {
  import opened Prelude
  import opened HostState
  import opened HostTrace

  /** A finished frame and the frame that opened it, as they stand when the child is popped. */
  datatype Closing = Closing(parent: Frame, child: Frame)

  /** Every frame that finishes above the running frame, in the order in which they finish. */
  function Closings(cfg: Config, c: Code, l: Local): seq<Closing>
    decreases c, 1
  {
    match c
    case Done => []
    case Plain(pc, op, salt, next) => if Short(op, salt) then [] else Closings(cfg, next, ObserveLocal(l, pc, op, salt))
    case Sub(call, next) =>
      SubClosings(cfg, call, l)
      + (if ExecSub(cfg, call, l).Ok? then Closings(cfg, next, ExecSub(cfg, call, l).value) else [])
    case Do(cheat, next) => Closings(cfg, next, ApplyLocal(l, cheat))
  }

  function SubClosings(cfg: Config, c: Call, l: Local): seq<Closing>
    decreases c, 0
  {
    if !Enters(c) then []
    else
      var e := Entry(cfg, c, l);
      var r := Exec(cfg, c.body.code, Child(e, c.body));
      Closings(cfg, c.body.code, Child(e, c.body))
      + (if r.Ok? then [Closing(e.frame, AddGas(r.value.frame, c.gas))] else [])
  }

  /** The scopes of a tree's frames in post-order, read off the tree alone. */
  function PostOrder(c: Code): seq<Scope> {
    match c
    case Done => []
    case Plain(_, _, _, next) => PostOrder(next)
    case Sub(call, next) =>
      (match call.body
       case NoFrame(_) => []
       case Framed(_, scope, _, _, _, code) => PostOrder(code) + [scope])
      + PostOrder(next)
    case Do(_, next) => PostOrder(next)
  }

  function Scopes(cs: seq<Closing>): seq<Scope> {
    if cs == [] then [] else [cs[0].child.ctx] + Scopes(cs[1..])
  }

  /** A closing is broadcast when the parent broadcasts and opened the child with CALL, CREATE or CREATE2. */
  predicate Eligible(k: Closing) {
    && k.parent.prank.Some?
    && k.parent.prank.value.broadcast
    && k.parent.lastOp in {CALL, CREATE, CREATE2}
  }

  function EmitOne(cfg: Config, k: Closing): seq<Broadcast> {
    if Eligible(k) && NewBroadcast(cfg, k.parent, k.child).Ok? then [NewBroadcast(cfg, k.parent, k.child).value] else []
  }

  /** The broadcasts of the eligible closings, in order. */
  function Emitted(cfg: Config, cs: seq<Closing>): seq<Broadcast> {
    if cs == [] then [] else EmitOne(cfg, cs[0]) + Emitted(cfg, cs[1..])
  }

  /** Every eligible closing has a record, so `Emitted` drops none. */
  ghost predicate AllRecorded(cfg: Config, cs: seq<Closing>) {
    forall i :: 0 <= i < |cs| && Eligible(cs[i]) ==> NewBroadcast(cfg, cs[i].parent, cs[i].child).Ok?
  }

  lemma {:induction false} ScopesConcat(a: seq<Closing>, b: seq<Closing>)
    ensures Scopes(a + b) == Scopes(a) + Scopes(b)
    decreases |a|
  {
    if a == [] {
      assert a + b == b;
    } else {
      assert (a + b)[1..] == a[1..] + b;
      ScopesConcat(a[1..], b);
    }
  }

  lemma {:induction false} EmittedConcat(cfg: Config, a: seq<Closing>, b: seq<Closing>)
    ensures Emitted(cfg, a + b) == Emitted(cfg, a) + Emitted(cfg, b)
    decreases |a|
  {
    if a == [] {
      assert a + b == b;
    } else {
      assert (a + b)[1..] == a[1..] + b;
      EmittedConcat(cfg, a[1..], b);
    }
  }

  lemma EmittedSnoc(cfg: Config, a: seq<Closing>, k: Closing)
    ensures Emitted(cfg, a + [k]) == Emitted(cfg, a) + EmitOne(cfg, k)
  {
    EmittedConcat(cfg, a, [k]);
    assert [k][1..] == [];
  }

  /** Frames finish in the tree's post-order. */
  lemma {:induction false} ClosingsArePostOrder(cfg: Config, c: Code, l: Local)
    requires Exec(cfg, c, l).Ok?
    ensures Scopes(Closings(cfg, c, l)) == PostOrder(c)
    decreases c
  {
    match c
    case Done =>
    case Plain(pc, op, salt, next) => ClosingsArePostOrder(cfg, next, ObserveLocal(l, pc, op, salt));
    case Sub(call, next) =>
      var rest := ExecSub(cfg, call, l).value;
      ClosingsArePostOrder(cfg, next, rest);
      ScopesConcat(SubClosings(cfg, call, l), Closings(cfg, next, rest));
      if call.body.Framed? {
        var e := Entry(cfg, call, l);
        var child := Child(e, call.body);
        ClosingsArePostOrder(cfg, call.body.code, child);
        ExecSameFrame(cfg, call.body.code, child);
        var k := Closing(e.frame, AddGas(Exec(cfg, call.body.code, child).value.frame, call.gas));
        ScopesConcat(Closings(cfg, call.body.code, child), [k]);
        assert Scopes([k]) == [call.body.scope];
      }
    case Do(cheat, next) => ClosingsArePostOrder(cfg, next, ApplyLocal(l, cheat));
  }

  /** A run that does not panic has recorded every eligible closing. */
  lemma {:induction false} EligibleAreRecorded(cfg: Config, c: Code, l: Local)
    requires Exec(cfg, c, l).Ok?
    ensures AllRecorded(cfg, Closings(cfg, c, l))
    decreases c
  {
    hide Entry, NewBroadcast;
    match c
    case Done =>
    case Plain(pc, op, salt, next) => EligibleAreRecorded(cfg, next, ObserveLocal(l, pc, op, salt));
    case Sub(call, next) =>
      EligibleAreRecorded(cfg, next, ExecSub(cfg, call, l).value);
      if call.body.Framed? {
        EligibleAreRecorded(cfg, call.body.code, Child(Entry(cfg, call, l), call.body));
      }
    case Do(cheat, next) => EligibleAreRecorded(cfg, next, ApplyLocal(l, cheat));
  }

  lemma CloseBroadcasts(cfg: Config, parent: Frame, child: Local, gas: U64)
    requires Close(cfg, parent, child, gas).Ok?
    ensures Close(cfg, parent, child, gas).value.world.broadcasts
         == child.world.broadcasts + EmitOne(cfg, Closing(parent, AddGas(child.frame, gas)))
  {
  }

  lemma {:induction false} ApplyAllBroadcasts(l: Local, cs: seq<Cheat>)
    ensures ApplyAll(l, cs).world.broadcasts == l.world.broadcasts
    decreases |cs|
  {
    if cs != [] {
      ApplyAllBroadcasts(ApplyLocal(l, cs[0]), cs[1..]);
    }
  }

  lemma EntryBroadcasts(cfg: Config, c: Call, l: Local)
    ensures Entry(cfg, c, l).world.broadcasts == l.world.broadcasts
  {
    ApplyAllBroadcasts(AfterEnter(cfg, c, l), Prologue(c.body));
  }

  lemma {:induction false} SubBroadcasts(cfg: Config, c: Call, l: Local)
    requires ExecSub(cfg, c, l).Ok?
    ensures ExecSub(cfg, c, l).value.world.broadcasts
         == l.world.broadcasts + Emitted(cfg, SubClosings(cfg, c, l))
    decreases c, 0
  {
    hide Entry, Close, EmitOne;
    EntryBroadcasts(cfg, c, l);
    if c.body.Framed? {
      var e := Entry(cfg, c, l);
      var child := Child(e, c.body);
      var done := Exec(cfg, c.body.code, child).value;
      RunBroadcasts(cfg, c.body.code, child);
      CloseBroadcasts(cfg, e.frame, done, c.gas);
      EmittedSnoc(cfg, Closings(cfg, c.body.code, child), Closing(e.frame, AddGas(done.frame, c.gas)));
    }
  }

  lemma NothingEmitted(cfg: Config)
    ensures Emitted(cfg, []) == []
  {
  }

  /** The hook receives exactly the eligible closings, in the order in which the frames finish. */
  lemma {:induction false} RunBroadcasts(cfg: Config, c: Code, l: Local)
    requires Exec(cfg, c, l).Ok?
    ensures Exec(cfg, c, l).value.world.broadcasts == l.world.broadcasts + Emitted(cfg, Closings(cfg, c, l))
    ensures AllRecorded(cfg, Closings(cfg, c, l))
    decreases c, 1
  {
    hide ExecSub, SubClosings, Emitted, AllRecorded;
    EligibleAreRecorded(cfg, c, l);
    match c
    case Done => NothingEmitted(cfg);
    case Plain(pc, op, salt, next) => RunBroadcasts(cfg, next, ObserveLocal(l, pc, op, salt));
    case Sub(call, next) =>
      var rest := ExecSub(cfg, call, l).value;
      var first, second := SubClosings(cfg, call, l), Closings(cfg, next, rest);
      SubBroadcasts(cfg, call, l);
      RunBroadcasts(cfg, next, rest);
      EmittedConcat(cfg, first, second);
      assert l.world.broadcasts + (Emitted(cfg, first) + Emitted(cfg, second))
          == (l.world.broadcasts + Emitted(cfg, first)) + Emitted(cfg, second);
    case Do(cheat, next) => RunBroadcasts(cfg, next, ApplyLocal(l, cheat));
  }

  /** The hooks of any call tree, on top of any suspended frames, emit its eligible frames in post-order. */
  lemma {:induction false} HooksEmitPostOrder(cfg: Config, below: seq<Frame>, l: Local, c: Code)
    requires Run(cfg, Lift(below, l), Trace(c, l.frame.ctx, l.frame.depth)).Ok?
    ensures Scopes(Closings(cfg, c, l)) == PostOrder(c)
    ensures AllRecorded(cfg, Closings(cfg, c, l))
    ensures Run(cfg, Lift(below, l), Trace(c, l.frame.ctx, l.frame.depth)).value.world.broadcasts
         == l.world.broadcasts + Emitted(cfg, Closings(cfg, c, l))
  {
    RunTrace(cfg, below, l, c);
    RunBroadcasts(cfg, c, l);
    ClosingsArePostOrder(cfg, c, l);
  }

  // ---------- gas ----------

  /** The gas of the frame's own frameless sub-calls. */
  function FramelessGas(c: Code): nat {
    match c
    case Done => 0
    case Plain(_, _, _, next) => FramelessGas(next)
    case Sub(call, next) => (if call.body.NoFrame? then call.gas else 0) + FramelessGas(next)
    case Do(_, next) => FramelessGas(next)
  }

  lemma {:induction false} ApplyAllGas(l: Local, cs: seq<Cheat>)
    ensures ApplyAll(l, cs).frame.gasUsed == l.frame.gasUsed
    decreases |cs|
  {
    if cs != [] {
      ApplyAllGas(ApplyLocal(l, cs[0]), cs[1..]);
    }
  }

  lemma SubGas(cfg: Config, c: Call, l: Local)
    requires ExecSub(cfg, c, l).Ok?
    ensures ExecSub(cfg, c, l).value.frame.gasUsed
         == if c.body.NoFrame? then (l.frame.gasUsed + c.gas) % TWO_64 else l.frame.gasUsed
  {
    ApplyAllGas(AfterEnter(cfg, c, l), Prologue(c.body));
  }

  lemma AddModulo(a: nat, b: nat, c: nat)
    ensures ((a + b) % TWO_64 + c) % TWO_64 == (a + (b + c)) % TWO_64
  {
  }

  /**
   A running frame is charged for its frameless sub-calls only; with its own gas added at exit, a
   broadcast reports those sub-calls twice.
   */
  lemma {:induction false} FrameGas(cfg: Config, c: Code, l: Local)
    requires Exec(cfg, c, l).Ok?
    ensures Exec(cfg, c, l).value.frame.gasUsed == (l.frame.gasUsed + FramelessGas(c)) % TWO_64
    decreases c
  {
    hide ExecSub;
    match c
    case Done =>
    case Plain(pc, op, salt, next) => FrameGas(cfg, next, ObserveLocal(l, pc, op, salt));
    case Sub(call, next) =>
      SubGas(cfg, call, l);
      FrameGas(cfg, next, ExecSub(cfg, call, l).value);
      AddModulo(l.frame.gasUsed, call.gas, FramelessGas(next));
    case Do(cheat, next) => FrameGas(cfg, next, ApplyLocal(l, cheat));
  }

  /** Every record reports the gas of its frame plus, once more, that of the frame's own frameless sub-calls. */
  lemma RecordedGas(cfg: Config, c: Call, l: Local)
    requires Enters(c) && Exec(cfg, c.body.code, Child(Entry(cfg, c, l), c.body)).Ok?
    ensures SubClosings(cfg, c, l) != []
    ensures var cs := SubClosings(cfg, c, l);
            cs[|cs| - 1].child.gasUsed == (FramelessGas(c.body.code) + c.gas) % TWO_64
  {
    FrameGas(cfg, c.body.code, Child(Entry(cfg, c, l), c.body));
    AddModulo(0, FramelessGas(c.body.code), c.gas);
  }
}
