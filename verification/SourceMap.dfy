/**
 Solidity source maps ("Source Mappings" in the Solidity documentation): decompression of the map
 along a sweep over the bytecode.
 */
module SourceMap {
  import opened Prelude
  import opened Decimal

  type Int32 = n: int | -0x8000_0000 <= n < 0x8000_0000

  datatype InstrMapping = InstrMapping(s: Int32, l: Int32, f: Int32, j: char, m: Int32)

  const ZERO_MAPPING := InstrMapping(0, 0, 0, 0 as char, 0)

  // ---------- strings ----------

  /** The pieces of `v` between occurrences of `sep`; one piece when there is none. */
  function Split(v: string, sep: char): (r: seq<string>)
    ensures r != []
  {
    if v == [] then [[]]
    else if v[0] == sep then [[]] + Split(v[1..], sep)
    else
      var rest := Split(v[1..], sep);
      [[v[0]] + rest[0]] + rest[1..]
  }

  function Join(parts: seq<string>, sep: char): string
    requires parts != []
  {
    if |parts| == 1 then parts[0] else parts[0] + [sep] + Join(parts[1..], sep)
  }

  lemma {:induction false} SplitPlain(v: string, sep: char)
    requires sep !in v
    ensures Split(v, sep) == [v]
    decreases |v|
  {
    if v != [] {
      SplitPlain(v[1..], sep);
      assert [v[0]] + v[1..] == v;
    }
  }

  lemma {:induction false} SplitAfter(a: string, b: string, sep: char)
    requires sep !in a
    ensures Split(a + [sep] + b, sep) == [a] + Split(b, sep)
    decreases |a|
  {
    var v := a + [sep] + b;
    if a == [] {
      assert v[1..] == b;
    } else {
      assert v[1..] == a[1..] + [sep] + b;
      SplitAfter(a[1..], b, sep);
      assert [a[0]] + a[1..] == a;
    }
  }

  lemma {:induction false} SplitJoin(parts: seq<string>, sep: char)
    requires parts != [] && forall i :: 0 <= i < |parts| ==> sep !in parts[i]
    ensures Split(Join(parts, sep), sep) == parts
    decreases |parts|
  {
    if |parts| == 1 {
      SplitPlain(parts[0], sep);
    } else {
      SplitJoin(parts[1..], sep);
      SplitAfter(parts[0], Join(parts[1..], sep), sep);
    }
  }

  // ---------- 32-bit decimals ----------

  /** The digits of a signed decimal, without its sign. */
  function Unsigned(x: string): string {
    if x != [] && (x[0] == '+' || x[0] == '-') then x[1..] else x
  }

  function Signed(x: string): int
    requires AllDigits(Unsigned(x))
  {
    if x != [] && x[0] == '-' then -(Value(Unsigned(x)) as int) else Value(Unsigned(x))
  }

  /** A sign or none, at least one digit, and a value that fits 32 bits. */
  predicate IsInt32(x: string) {
    Unsigned(x) != [] && AllDigits(Unsigned(x)) && -0x8000_0000 <= Signed(x) < 0x8000_0000
  }

  function ParseInt32(x: string): (r: Option<Int32>)
    ensures r.Some? <==> IsInt32(x)
  {
    if IsInt32(x) then Some(Signed(x)) else None
  }

  /** A number is read from digits with a sign or none, leading zeros or not, and from nothing else. */
  lemma ParsedNumbers(digits: string)
    requires digits != [] && AllDigits(digits)
    ensures ParseInt32(digits) == if Value(digits) < 0x8000_0000 then Some(Value(digits)) else None
    ensures ParseInt32("+" + digits) == ParseInt32(digits)
    ensures ParseInt32("-" + digits) == if Value(digits) <= 0x8000_0000 then Some(-(Value(digits) as int)) else None
  {
    hide Value;
    assert IsDigit(digits[0]);
    assert ("+" + digits)[1..] == digits && ("-" + digits)[1..] == digits;
  }

  lemma NothingElseParses(x: string)
    requires ParseInt32(x).Some?
    ensures exists sign, digits :: sign in {"", "+", "-"} && digits != [] && AllDigits(digits) && x == sign + digits
  {
    hide Value;
    var digits := Unsigned(x);
    if digits == x {
      assert x == "" + digits;
    } else {
      assert x == [x[0]] + digits;
    }
  }

  lemma PrintParse(n: Int32)
    ensures ParseInt32(PrintInt(n)) == Some(n)
    ensures forall c :: c in PrintInt(n) ==> c == '-' || IsDigit(c)
  {
    var k: int := n;
    ValueOfDigits(if k < 0 then -k else k);
  }

  // ---------- one element of the map ----------

  /** A numeric field: inherited when it is missing or empty. */
  function NumberField(fields: seq<string>, i: nat, inherited: Int32): Option<Int32> {
    if i >= |fields| || fields[i] == [] then Some(inherited) else ParseInt32(fields[i])
  }

  function JumpField(fields: seq<string>, inherited: char): char {
    if |fields| <= 3 || fields[3] == [] then inherited else fields[3][0]
  }

  /** The mapping that the element `v` denotes after `last`; None when it does not parse. */
  function Expand(last: InstrMapping, v: string): Option<InstrMapping> {
    var d := Split(v, ':');
    if |d| > 5 then None
    else
      match (NumberField(d, 0, last.s), NumberField(d, 1, last.l), NumberField(d, 2, last.f), NumberField(d, 4, last.m))
      case (Some(s), Some(l), Some(f), Some(m)) => Some(InstrMapping(s, l, f, JumpField(d, last.j), m))
      case _ => None
  }

  /** An element is accepted exactly when it has at most five fields and its numbers are 32-bit decimals. */
  lemma ExpandAccepts(last: InstrMapping, v: string)
    ensures Expand(last, v).Some?
       <==> var d := Split(v, ':');
            |d| <= 5 && forall i :: 0 <= i < |d| && i != 3 && d[i] != [] ==> IsInt32(d[i])
  {
    var d := Split(v, ':');
    if |d| <= 5 {
      if forall i :: 0 <= i < |d| && i != 3 && d[i] != [] ==> IsInt32(d[i]) {
        assert forall i :: i in {0, 1, 2, 4} && i < |d| && d[i] != [] ==> IsInt32(d[i]);
      } else {
        var i :| 0 <= i < |d| && i != 3 && d[i] != [] && !IsInt32(d[i]);
        assert i in {0, 1, 2, 4};
      }
    }
  }

  /** The jump mark is the first character of the fourth field. */
  lemma ExpandedJump(last: InstrMapping, v: string)
    requires Expand(last, v).Some?
    ensures var d := Split(v, ':');
            Expand(last, v).value.j == if |d| > 3 && d[3] != [] then d[3][0] else last.j
  {
  }

  method ParseInstrMapping(last: InstrMapping, v: string) returns (r: Option<InstrMapping>)
    ensures r == Expand(last, v)
  {
    var data := Split(v, ':');
    var out := last;
    if |data| > 5 {
      return None;
    }
    if data[0] != [] {
      var p := ParseInt32(data[0]);
      if p.None? {
        return None;
      }
      out := out.(s := p.value);
    }
    if |data| < 2 {
      return Some(out);
    }
    if data[1] != [] {
      var p := ParseInt32(data[1]);
      if p.None? {
        return None;
      }
      out := out.(l := p.value);
    }
    if |data| < 3 {
      return Some(out);
    }
    if data[2] != [] {
      var p := ParseInt32(data[2]);
      if p.None? {
        return None;
      }
      out := out.(f := p.value);
    }
    if |data| < 4 {
      return Some(out);
    }
    if data[3] != [] {
      out := out.(j := data[3][0]);
    }
    if |data| < 5 {
      return Some(out);
    }
    if data[4] != [] {
      var p := ParseInt32(data[4]);
      if p.None? {
        return None;
      }
      out := out.(m := p.value);
    }
    return Some(out);
  }

  // ---------- the whole map ----------

  /** The `k`-th expanded element; the map's last element repeats once the map is exhausted. */
  function Element(elements: seq<string>, k: nat): Option<InstrMapping> {
    var last := if k == 0 then Some(ZERO_MAPPING) else Element(elements, k - 1);
    match last
    case None => None
    case Some(m) => if k < |elements| then Expand(m, elements[k]) else Some(m)
  }

  lemma {:induction false} ElementsStayConstant(elements: seq<string>, k: nat)
    requires elements != [] && |elements| - 1 <= k
    ensures Element(elements, k) == Element(elements, |elements| - 1)
  {
    if k >= |elements| {
      ElementsStayConstant(elements, k - 1);
    }
  }

  lemma ExpandEmpty(last: InstrMapping)
    ensures Expand(last, []) == Some(last)
  {
  }

  /** A PUSH instruction carries 1 to 32 bytes of data. */
  function InstrLen(op: Byte): (n: nat)
    ensures 1 <= n <= 33
  {
    if 0x60 <= op <= 0x7f then op - 0x60 + 2 else 1
  }

  /** Where the `k`-th instruction starts, or where the sweep ended before it. */
  function Start(code: seq<Byte>, k: nat): nat {
    if k == 0 then 0
    else
      var p := Start(code, k - 1);
      if p < |code| then p + InstrLen(code[p]) else p
  }

  /** The `k`-th instruction exists and covers the byte at `pc`. */
  predicate Covers(code: seq<Byte>, k: nat, pc: nat) {
    Start(code, k) < |code| && Start(code, k) <= pc < Start(code, k + 1)
  }

  lemma {:induction false} StartMonotone(code: seq<Byte>, i: nat, j: nat)
    requires i <= j
    ensures Start(code, i) <= Start(code, j)
    decreases j
  {
    if i < j {
      StartMonotone(code, i, j - 1);
    }
  }

  /** No byte belongs to two instructions. */
  lemma CoversOnce(code: seq<Byte>, i: nat, j: nat, pc: nat)
    requires Covers(code, i, pc) && Covers(code, j, pc)
    ensures i == j
  {
    if i < j {
      StartMonotone(code, i + 1, j);
    } else if j < i {
      StartMonotone(code, j + 1, i);
    }
  }

  predicate Covered(code: seq<Byte>, n: nat, pc: nat) {
    exists k: nat :: k < n && Covers(code, k, pc)
  }

  /** The first `n` instructions cover everything before the next one. */
  lemma {:induction false} PrefixCovered(code: seq<Byte>, n: nat, pc: nat)
    requires pc < Start(code, n)
    ensures Covered(code, n, pc)
  {
    if pc < Start(code, n - 1) {
      PrefixCovered(code, n - 1, pc);
      var k: nat :| k < n - 1 && Covers(code, k, pc);
      assert Covers(code, k, pc);
    } else {
      assert Covers(code, n - 1, pc);
    }
  }

  lemma {:induction false} StartBound(code: seq<Byte>, n: nat)
    ensures Start(code, n) <= |code| + 32
  {
    if n > 0 {
      StartBound(code, n - 1);
    }
  }

  /** The entries of the first `n` instructions, each repeated for every byte of its instruction. */
  function Entries(code: seq<Byte>, elements: seq<string>, n: nat): Option<seq<InstrMapping>> {
    if n == 0 then Some([])
    else
      match (Entries(code, elements, n - 1), Element(elements, n - 1))
      case (Some(es), Some(m)) => Some(es + seq(Start(code, n) - Start(code, n - 1), _ => m))
      case _ => None
  }

  /** What a parsed map holds: one entry per byte, namely that of the instruction that covers the byte. */
  ghost predicate Decodes(code: seq<Byte>, elements: seq<string>, n: nat, instr: seq<InstrMapping>) {
    && |instr| == Start(code, n)
    && (forall pc: nat :: pc < |instr| ==> Covered(code, n, pc))
    && (forall k: nat, pc: nat :: k < n && Covers(code, k, pc) ==> pc < |instr| && Element(elements, k) == Some(instr[pc]))
  }

  lemma {:induction false} EntriesFail(code: seq<Byte>, elements: seq<string>, n: nat)
    ensures Entries(code, elements, n).None? <==> exists k: nat :: k < n && Element(elements, k).None?
  {
    hide Element, Start;
    if n > 0 {
      EntriesFail(code, elements, n - 1);
      if Entries(code, elements, n - 1).None? {
        var k: nat :| k < n - 1 && Element(elements, k).None?;
        assert k < n && Element(elements, k).None?;
      } else if Element(elements, n - 1).Some? {
        forall k: nat | k < n ensures Element(elements, k).Some? {
        }
      } else {
        var k: nat := n - 1;
        assert k < n && Element(elements, k).None?;
        assert Entries(code, elements, n).None?;
        assert exists k: nat :: k < n && Element(elements, k).None?;
      }
    }
  }

  lemma {:induction false} EntriesDecode(code: seq<Byte>, elements: seq<string>, n: nat)
    requires Entries(code, elements, n).Some?
    ensures Decodes(code, elements, n, Entries(code, elements, n).value)
  {
    hide Element;
    if n > 0 {
      EntriesDecode(code, elements, n - 1);
      var before, es := Entries(code, elements, n - 1).value, Entries(code, elements, n).value;
      forall pc: nat | pc < |es| ensures Covered(code, n, pc) {
        PrefixCovered(code, n, pc);
      }
      forall k: nat, pc: nat | k < n && Covers(code, k, pc) ensures pc < |es| && Element(elements, k) == Some(es[pc]) {
        StartMonotone(code, k + 1, n);
        if k < n - 1 {
          StartMonotone(code, k + 1, n - 1);
          assert es[pc] == before[pc];
        }
      }
    }
  }

  /** The sweep has `n` instructions. */
  ghost predicate SweepLength(code: seq<Byte>, n: nat) {
    |code| <= Start(code, n) && forall k: nat :: k < n ==> Start(code, k) < |code|
  }

  lemma SweepLengthUnique(code: seq<Byte>, m: nat, n: nat)
    requires SweepLength(code, m) && SweepLength(code, n)
    ensures m == n
  {
  }

  lemma {:induction false} SweepFrom(code: seq<Byte>, k: nat) returns (n: nat)
    requires forall j: nat :: j < k ==> Start(code, j) < |code|
    ensures SweepLength(code, n)
    decreases |code| + 33 - Start(code, k)
  {
    if |code| <= Start(code, k) {
      return k;
    }
    StartBound(code, k + 1);
    n := SweepFrom(code, k + 1);
  }

  /** The number of instructions that a sweep over `code` meets: there is exactly one such number. */
  ghost function SweepOf(code: seq<Byte>): (n: nat)
    ensures SweepLength(code, n)
    ensures forall m: nat :: SweepLength(code, m) ==> m == n
  {
    assert exists n: nat :: SweepLength(code, n) by {
      var n := SweepFrom(code, 0);
    }
    var n: nat :| SweepLength(code, n);
    assert forall m: nat :: SweepLength(code, m) ==> m == n by {
      forall m: nat | SweepLength(code, m) ensures m == n {
        SweepLengthUnique(code, m, n);
      }
    }
    n
  }

  lemma DecodedLength(code: seq<Byte>, elements: seq<string>, n: nat, instr: seq<InstrMapping>)
    requires SweepLength(code, n) && Decodes(code, elements, n, instr)
    ensures |code| <= |instr| == Start(code, n)
  {
  }

  /**
   A parsed map has at least one entry per byte of code and at most 32 more, and the entry at each byte
   is the expanded element of the instruction covering it. Parsing fails exactly when an element used by
   some instruction does not parse.
   */
  lemma ParsedMap(code: seq<Byte>, elements: seq<string>)
    ensures var n, r := SweepOf(code), Entries(code, elements, SweepOf(code));
            && (r.None? <==> exists k: nat :: k < n && Element(elements, k).None?)
            && (r.Some? ==> |code| <= |r.value| <= |code| + 32 && Decodes(code, elements, n, r.value))
  {
    hide Entries, Element, SweepOf, Decodes;
    EntriesFail(code, elements, SweepOf(code));
    if Entries(code, elements, SweepOf(code)).Some? {
      EntriesDecode(code, elements, SweepOf(code));
      StartBound(code, SweepOf(code));
      DecodedLength(code, elements, SweepOf(code), Entries(code, elements, SweepOf(code)).value);
    }
  }

  /** What one turn of the parsing loop adds. */
  lemma NextEntries(code: seq<Byte>, elements: seq<string>, k: nat, last: InstrMapping, es: seq<InstrMapping>)
    requires Start(code, k) < |code| && Entries(code, elements, k) == Some(es)
    requires Some(last) == if k == 0 then Some(ZERO_MAPPING) else Element(elements, k - 1)
    ensures k < SweepOf(code) && Start(code, k + 1) == Start(code, k) + InstrLen(code[Start(code, k)])
    ensures Element(elements, k) == Expand(last, if k < |elements| then elements[k] else [])
    ensures Element(elements, k).None? ==> Entries(code, elements, SweepOf(code)).None?
    ensures Element(elements, k).Some? ==>
              Entries(code, elements, k + 1) == Some(es + seq(InstrLen(code[Start(code, k)]), _ => Element(elements, k).value))
  {
    ExpandEmpty(last);
    hide Expand, SweepOf;
    if SweepOf(code) <= k {
      StartMonotone(code, SweepOf(code), k);
    }
    if Element(elements, k).None? {
      EntriesFail(code, elements, SweepOf(code));
    }
  }

  method ParseSourceMap(code: seq<Byte>, sourceMap: string) returns (r: Option<seq<InstrMapping>>)
    ensures r == Entries(code, Split(sourceMap, ';'), SweepOf(code))
  {
    hide Element, Entries, Expand, Start;
    var instructions := Split(sourceMap, ';');
    var instr: seq<InstrMapping> := [];
    var instIndex: nat := 0;
    var lastInstr := ZERO_MAPPING;
    var i: nat := 0;
    NoEntries(code, instructions);
    while i < |code|
      invariant i == Start(code, instIndex) && instIndex <= SweepOf(code)
      invariant Some(lastInstr) == if instIndex == 0 then Some(ZERO_MAPPING) else Element(instructions, instIndex - 1)
      invariant Entries(code, instructions, instIndex) == Some(instr)
      decreases |code| - i
    {
      NextEntries(code, instructions, instIndex, lastInstr, instr);
      var inst := code[i];
      var instLen := 1;
      if inst >= 0x60 && inst <= 0x7f {
        instLen := instLen + (inst - 0x60 + 1);
      }
      var instMapping := [];
      if instIndex < |instructions| {
        instMapping := instructions[instIndex];
      }
      var m := ParseInstrMapping(lastInstr, instMapping);
      if m.None? {
        return None;
      }
      ghost var before := instr;
      for j := 0 to instLen
        invariant instr == before + seq(j, _ => m.value)
      {
        instr := instr + [m.value];
      }
      lastInstr := m.value;
      i := i + instLen;
      instIndex := instIndex + 1;
    }
    return Some(instr);
  }

  lemma NoEntries(code: seq<Byte>, elements: seq<string>)
    ensures Start(code, 0) == 0 && Entries(code, elements, 0) == Some([])
  {
  }
}
