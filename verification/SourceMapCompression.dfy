/**
 The compressed form of a source map, as the Solidity documentation lays it down: a field that equals
 the previous element's may be left empty, and trailing fields may be left out. Whatever is left out,
 parsing restores the list of mappings.
 */
module SourceMapCompression {
  import opened Prelude
  import opened Decimal
  import opened SourceMap

  /** How one element is written: `keep` fields, of which those marked are left empty. */
  datatype Style = Style(keep: nat, noS: bool, noL: bool, noF: bool, noJ: bool, noM: bool)

  /** What is not written is inherited, and the jump letter does not clash with a separator. */
  predicate Legal(last: InstrMapping, m: InstrMapping, o: Style) {
    && 1 <= o.keep <= 5
    && (o.noS ==> m.s == last.s)
    && (o.noL || o.keep <= 1 ==> m.l == last.l)
    && (o.noF || o.keep <= 2 ==> m.f == last.f)
    && (o.noJ || o.keep <= 3 ==> m.j == last.j)
    && (o.noM || o.keep <= 4 ==> m.m == last.m)
    && (o.noJ || o.keep <= 3 || (m.j != ':' && m.j != ';'))
  }

  function Unless(omitted: bool, text: string): string {
    if omitted then [] else text
  }

  function Fields(m: InstrMapping, o: Style): seq<string>
    requires 1 <= o.keep <= 5
  {
    [Unless(o.noS, PrintInt(m.s)), Unless(o.noL, PrintInt(m.l)), Unless(o.noF, PrintInt(m.f)), Unless(o.noJ, [m.j]),
     Unless(o.noM, PrintInt(m.m))][..o.keep]
  }

  function PrintElement(m: InstrMapping, o: Style): string
    requires 1 <= o.keep <= 5
  {
    Join(Fields(m, o), ':')
  }

  /** The element before the `k`-th. */
  function Before(ms: seq<InstrMapping>, k: nat): InstrMapping
    requires k <= |ms|
  {
    if k == 0 then ZERO_MAPPING else ms[k - 1]
  }

  predicate LegalAll(ms: seq<InstrMapping>, os: seq<Style>) {
    |os| == |ms| && forall k :: 0 <= k < |ms| ==> Legal(Before(ms, k), ms[k], os[k])
  }

  function PrintElements(ms: seq<InstrMapping>, os: seq<Style>): (r: seq<string>)
    requires LegalAll(ms, os)
    ensures |r| == |ms|
  {
    seq(|ms|, k requires 0 <= k < |ms| => assert Legal(Before(ms, k), ms[k], os[k]); PrintElement(ms[k], os[k]))
  }

  function PrintMap(ms: seq<InstrMapping>, os: seq<Style>): string
    requires ms != [] && LegalAll(ms, os)
  {
    Join(PrintElements(ms, os), ';')
  }

  lemma {:induction false} JoinAvoids(parts: seq<string>, sep: char, c: char)
    requires parts != [] && c != sep && forall i :: 0 <= i < |parts| ==> c !in parts[i]
    ensures c !in Join(parts, sep)
    decreases |parts|
  {
    if |parts| > 1 {
      JoinAvoids(parts[1..], sep, c);
    }
  }

  lemma FieldsAvoid(last: InstrMapping, m: InstrMapping, o: Style, c: char)
    requires Legal(last, m, o) && (c == ':' || c == ';')
    ensures forall i :: 0 <= i < |Fields(m, o)| ==> c !in Fields(m, o)[i]
  {
  }

  lemma NumberRestored(n: Int32, omitted: bool, last: Int32)
    requires omitted ==> n == last
    ensures var text := Unless(omitted, PrintInt(n));
            (if text == [] then Some(last) else ParseInt32(text)) == Some(n)
  {
    PrintParse(n);
  }

  /** Every field reads back as the mapping's own. */
  lemma FieldsRestored(last: InstrMapping, m: InstrMapping, o: Style)
    requires Legal(last, m, o)
    ensures var d := Fields(m, o);
            && NumberField(d, 0, last.s) == Some(m.s)
            && NumberField(d, 1, last.l) == Some(m.l)
            && NumberField(d, 2, last.f) == Some(m.f)
            && NumberField(d, 4, last.m) == Some(m.m)
            && JumpField(d, last.j) == m.j
  {
    hide PrintInt, ParseInt32;
    NumberRestored(m.s, o.noS, last.s);
    if o.keep > 1 { NumberRestored(m.l, o.noL, last.l); }
    if o.keep > 2 { NumberRestored(m.f, o.noF, last.f); }
    if o.keep > 4 { NumberRestored(m.m, o.noM, last.m); }
  }

  lemma PrintedFields(last: InstrMapping, m: InstrMapping, o: Style)
    requires Legal(last, m, o)
    ensures Split(PrintElement(m, o), ':') == Fields(m, o) && |Fields(m, o)| <= 5
    ensures ';' !in PrintElement(m, o)
  {
    FieldsAvoid(last, m, o, ':');
    FieldsAvoid(last, m, o, ';');
    hide Unless;
    SplitJoin(Fields(m, o), ':');
    JoinAvoids(Fields(m, o), ':', ';');
  }

  /** One element: expanding what was printed gives the mapping back, and it cannot be mistaken for two. */
  lemma ExpandPrinted(last: InstrMapping, m: InstrMapping, o: Style)
    requires Legal(last, m, o)
    ensures Expand(last, PrintElement(m, o)) == Some(m)
    ensures ';' !in PrintElement(m, o)
  {
    hide Fields, PrintElement, NumberField, JumpField, Split;
    PrintedFields(last, m, o);
    FieldsRestored(last, m, o);
  }

  lemma {:induction false} ElementsRestored(ms: seq<InstrMapping>, os: seq<Style>, k: nat)
    requires LegalAll(ms, os) && k < |ms|
    ensures Element(PrintElements(ms, os), k) == Some(ms[k])
  {
    hide Expand, PrintElement, Legal;
    if k > 0 {
      ElementsRestored(ms, os, k - 1);
    }
    assert Legal(Before(ms, k), ms[k], os[k]);
    ExpandPrinted(Before(ms, k), ms[k], os[k]);
  }

  /**
   Decompression undoes compression: whichever fields are left out, every element of the parsed map is
   the mapping that was printed, and the last one repeats after the end.
   */
  lemma MapRestored(ms: seq<InstrMapping>, os: seq<Style>, k: nat)
    requires ms != [] && LegalAll(ms, os)
    ensures Element(Split(PrintMap(ms, os), ';'), k) == Some(if k < |ms| then ms[k] else ms[|ms| - 1])
  {
    hide Legal, Expand, PrintElement, Element, Split, Join;
    var elements := PrintElements(ms, os);
    forall i | 0 <= i < |elements| ensures ';' !in elements[i] {
      assert Legal(Before(ms, i), ms[i], os[i]);
      ExpandPrinted(Before(ms, i), ms[i], os[i]);
    }
    SplitJoin(elements, ';');
    if k < |ms| {
      ElementsRestored(ms, os, k);
    } else {
      ElementsStayConstant(elements, k);
      ElementsRestored(ms, os, |ms| - 1);
    }
  }

  /** Parsing a compressed map of any code succeeds, and each byte gets the mapping of its instruction. */
  lemma CompressedMapParses(code: seq<Byte>, ms: seq<InstrMapping>, os: seq<Style>)
    requires ms != [] && LegalAll(ms, os)
    ensures var r := Entries(code, Split(PrintMap(ms, os), ';'), SweepOf(code));
            && r.Some? && |code| <= |r.value| <= |code| + 32
            && forall k: nat, pc: nat :: k < SweepOf(code) && Covers(code, k, pc) ==>
                 pc < |r.value| && r.value[pc] == if k < |ms| then ms[k] else ms[|ms| - 1]
  {
    hide PrintMap, Split, SweepOf, Element, Covers;
    var elements := Split(PrintMap(ms, os), ';');
    forall k: nat ensures Element(elements, k) == Some(if k < |ms| then ms[k] else ms[|ms| - 1]) {
      MapRestored(ms, os, k);
    }
    ParsedMap(code, elements);
  }
}
