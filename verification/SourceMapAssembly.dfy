/**
 The sweep over the bytecode against an assembler: code put together from instructions is taken apart into
 the same instructions, so that every byte gets the mapping of the instruction it was assembled from.
 */
module SourceMapAssembly {
  import opened Prelude
  import opened SourceMap
  import opened SourceMapCompression

  datatype Instruction = Instruction(op: Byte, data: seq<Byte>)

  /** PUSH1 to PUSH32, the opcodes 0x60 to 0x7f, carry that many bytes of data; no other opcode carries any. */
  predicate Sized(i: Instruction) {
    |i.data| == if 0x60 <= i.op <= 0x7f then i.op - 0x5f else 0
  }

  predicate AllSized(prog: seq<Instruction>) {
    forall i :: 0 <= i < |prog| ==> Sized(prog[i])
  }

  function Assemble(prog: seq<Instruction>): seq<Byte> {
    if prog == [] then []
    else
      var n := |prog| - 1;
      Assemble(prog[..n]) + ([prog[n].op] + prog[n].data)
  }

  /** Where the `k`-th instruction is assembled to. */
  function Offset(prog: seq<Instruction>, k: nat): nat
    requires k <= |prog|
  {
    |Assemble(prog[..k])|
  }

  lemma {:induction false} AssembledPrefix(prog: seq<Instruction>, k: nat)
    requires k <= |prog|
    ensures Assemble(prog[..k]) <= Assemble(prog)
    decreases |prog|
  {
    if k == |prog| {
      assert prog[..k] == prog;
    } else {
      var n := |prog| - 1;
      AssembledPrefix(prog[..n], k);
      assert prog[..n][..k] == prog[..k];
    }
  }

  lemma AssembledInstruction(prog: seq<Instruction>, k: nat)
    requires k < |prog|
    ensures Offset(prog, k + 1) == Offset(prog, k) + 1 + |prog[k].data| <= |Assemble(prog)|
    ensures Assemble(prog)[Offset(prog, k)] == prog[k].op
  {
    AssembledPrefix(prog, k + 1);
    assert prog[..k + 1][..k] == prog[..k];
  }

  /** The sweep finds every instruction where it was assembled to. */
  lemma {:induction false} SweepFindsInstructions(prog: seq<Instruction>, k: nat)
    requires AllSized(prog) && k <= |prog|
    ensures Start(Assemble(prog), k) == Offset(prog, k)
    decreases k
  {
    if k > 0 {
      SweepFindsInstructions(prog, k - 1);
      AssembledInstruction(prog, k - 1);
      assert Sized(prog[k - 1]);
    }
  }

  /** The sweep meets as many instructions as were assembled. */
  lemma SweepCountsInstructions(prog: seq<Instruction>)
    requires AllSized(prog)
    ensures SweepOf(Assemble(prog)) == |prog|
  {
    var code := Assemble(prog);
    hide Start, SweepOf;
    SweepFindsInstructions(prog, |prog|);
    assert prog[..|prog|] == prog;
    forall k: nat | k < |prog| ensures Start(code, k) < |code| {
      SweepFindsInstructions(prog, k);
      AssembledInstruction(prog, k);
    }
    assert SweepLength(code, |prog|);
  }

  /**
   A map parsed along assembled code has one entry per byte, and the bytes of each instruction get the
   element of that instruction.
   */
  lemma AssembledMap(prog: seq<Instruction>, elements: seq<string>, k: nat, pc: nat)
    requires AllSized(prog) && Entries(Assemble(prog), elements, SweepOf(Assemble(prog))).Some?
    requires k < |prog| && Offset(prog, k) <= pc < Offset(prog, k + 1)
    ensures var instr := Entries(Assemble(prog), elements, SweepOf(Assemble(prog))).value;
            |instr| == |Assemble(prog)| && pc < |instr| && Element(elements, k) == Some(instr[pc])
  {
    var code := Assemble(prog);
    hide Entries, Element, SweepOf;
    ParsedMap(code, elements);
    SweepCountsInstructions(prog);
    SweepFindsInstructions(prog, |prog|);
    assert prog[..|prog|] == prog;
    SweepFindsInstructions(prog, k);
    SweepFindsInstructions(prog, k + 1);
    AssembledInstruction(prog, k);
    hide Start, Assemble, Offset;
    assert Covers(code, k, pc);
  }

  /** Compressed and parsed along assembled code, every byte gets back the mapping of its own instruction. */
  lemma AssembledMapRestored(prog: seq<Instruction>, ms: seq<InstrMapping>, os: seq<Style>, k: nat, pc: nat)
    requires AllSized(prog) && ms != [] && LegalAll(ms, os)
    requires k < |prog| && Offset(prog, k) <= pc < Offset(prog, k + 1)
    ensures var r := Entries(Assemble(prog), Split(PrintMap(ms, os), ';'), SweepOf(Assemble(prog)));
            && r.Some? && |r.value| == |Assemble(prog)| && pc < |r.value|
            && r.value[pc] == if k < |ms| then ms[k] else ms[|ms| - 1]
  {
    var elements := Split(PrintMap(ms, os), ';');
    hide Entries, Element, SweepOf, Split, PrintMap, Assemble;
    CompressedMapParses(Assemble(prog), ms, os);
    AssembledMap(prog, elements, k, pc);
    MapRestored(ms, os, k);
  }
}
