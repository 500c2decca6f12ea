/**
 The console's printf: a message is scanned into literal text and directives, and values fill the
 directives in order.

 Messages are sequences of Unicode characters. `show` stands for the formatting of one value under
 one directive. The documentation of the code says that "%%" prints a single percent sign; the code
 prints both, and the second one may start a directive.
 */
module ConsoleFormat {
  import opened Prelude
  import opened Decimal

  datatype Spec =
    | StringFormat
    | NumberFormat
    | IntegerFormat
    | ObjectFormat
    | ExponentialFormat(precision: int)
    | HexadecimalFormat

  /** A byte-order mark at the start of the text is skipped by the scanner. */
  const BOM: char := '\U{FEFF}'

  function ScanStart(msg: string): nat {
    if msg != [] && msg[0] == BOM then 1 else 0
  }

  function SimpleSpec(c: char): Option<Spec> {
    match c
    case 's' => Some(StringFormat)
    case 'd' => Some(NumberFormat)
    case 'i' => Some(IntegerFormat)
    case 'o' => Some(ObjectFormat)
    case 'e' => Some(ExponentialFormat(-1))
    case 'x' => Some(HexadecimalFormat)
    case _ => None
  }

  /** The first offset from `p` on that holds no digit. */
  function DigitsEnd(msg: string, p: nat): (q: nat)
    requires p <= |msg|
    ensures p <= q <= |msg|
    ensures AllDigits(msg[p..q])
    ensures q < |msg| ==> !IsDigit(msg[q])
    decreases |msg| - p
  {
    if p < |msg| && IsDigit(msg[p]) then
      var q := DigitsEnd(msg, p + 1);
      assert msg[p..q] == [msg[p]] + msg[p + 1..q];
      q
    else p
  }

  /** The directive after a percent sign at `p - 1`, if there is one, and where scanning goes on. */
  function SpecAt(msg: string, p: nat): (r: (Option<Spec>, nat))
    requires p < |msg|
    ensures p < r.1 <= |msg|
  {
    if SimpleSpec(msg[p]).Some? then (SimpleSpec(msg[p]), p + 1)
    else
      var q := DigitsEnd(msg, p);
      if q == |msg| then (None, q)
      else if msg[q] == 'e' && Value(msg[p..q]) < 0x1_0000 then (Some(ExponentialFormat(Value(msg[p..q]))), q + 1)
      else (None, q + 1)
  }

  datatype Piece = Literal(text: string) | Directive(text: string, spec: Spec)

  /** The piece of `msg` at offset `p`, and where the next one starts. */
  function First(msg: string, p: nat): (r: (Piece, nat))
    requires p < |msg|
    ensures p < r.1 <= |msg| && r.0.text == msg[p..r.1]
  {
    if msg[p] != '%' || p + 1 == |msg| || msg[p + 1] == '%' then (Literal([msg[p]]), p + 1)
    else
      var (spec, end) := SpecAt(msg, p + 1);
      (if spec.Some? then Directive(msg[p..end], spec.value) else Literal(msg[p..end]), end)
  }

  /** The pieces of `msg` from offset `p` on. */
  function Scan(msg: string, p: nat): seq<Piece>
    requires p <= |msg|
    decreases |msg| - p
  {
    if p == |msg| then [] else [First(msg, p).0] + Scan(msg, First(msg, p).1)
  }

  // ---------- scanning is lossless ----------

  function Text(ps: seq<Piece>): string {
    if ps == [] then [] else ps[0].text + Text(ps[1..])
  }

  lemma NoText()
    ensures Text([]) == []
  {
  }

  lemma TextCons(p: Piece, ps: seq<Piece>)
    ensures Text([p] + ps) == p.text + Text(ps)
  {
  }

  lemma {:induction false} ScanIsLossless(msg: string, p: nat)
    requires p <= |msg|
    ensures Text(Scan(msg, p)) == msg[p..]
    decreases |msg| - p
  {
    hide First, Text;
    if p == |msg| {
      NoText();
    } else {
      var (piece, end) := First(msg, p);
      ScanIsLossless(msg, end);
      TextCons(piece, Scan(msg, end));
      assert msg[p..] == msg[p..end] + msg[end..];
    }
  }

  // ---------- directives are exactly the well-formed ones ----------

  /** The letter that stands for a format. */
  function Letter(spec: Spec): char {
    match spec
    case StringFormat => 's'
    case NumberFormat => 'd'
    case IntegerFormat => 'i'
    case ObjectFormat => 'o'
    case ExponentialFormat(_) => 'e'
    case HexadecimalFormat => 'x'
  }

  /** The grammar of directives: a letter, or a precision of at most 16 bits before the letter e. */
  predicate WellFormed(text: string, spec: Spec) {
    && |text| >= 2
    && text[0] == '%'
    && (|| (|text| == 2 && text[1] == Letter(spec) && (spec.ExponentialFormat? ==> spec.precision == -1))
        || (var digits := text[1..|text| - 1];
            && digits != [] && AllDigits(digits) && text[|text| - 1] == 'e'
            && Value(digits) < 0x1_0000 && spec == ExponentialFormat(Value(digits))))
  }

  lemma {:induction false} DigitsEndAt(msg: string, p: nat, q: nat)
    requires p <= q < |msg| && AllDigits(msg[p..q]) && !IsDigit(msg[q])
    ensures DigitsEnd(msg, p) == q
    decreases q - p
  {
    if p < q {
      assert IsDigit(msg[p..q][0]);
      assert msg[p + 1..q] == msg[p..q][1..];
      DigitsEndAt(msg, p + 1, q);
    }
  }

  /** Wherever the scan stands, its next piece is a directive exactly when the text there is one. */
  lemma DirectivesAreWellFormed(msg: string, p: nat, t: string, spec: Spec)
    requires p < |msg|
    ensures Scan(msg, p)[0] == First(msg, p).0
    ensures First(msg, p).0 == Directive(t, spec) <==> t <= msg[p..] && WellFormed(t, spec)
  {
    hide First, WellFormed;
    if First(msg, p).0 == Directive(t, spec) {
      DirectiveIsWellFormed(msg, p, t, spec);
    }
    if t <= msg[p..] && WellFormed(t, spec) {
      WellFormedIsDirective(msg, p, t, spec);
    }
  }

  lemma DirectiveIsWellFormed(msg: string, p: nat, t: string, spec: Spec)
    requires p < |msg| && First(msg, p).0 == Directive(t, spec)
    ensures t <= msg[p..] && WellFormed(t, spec)
  {
    var end := First(msg, p).1;
    assert msg[p..] == t + msg[end..];
    if SimpleSpec(msg[p + 1]).None? {
      hide SimpleSpec, Value;
      var q := DigitsEnd(msg, p + 1);
      assert end == q + 1 && |t| == end - p;
      assert forall i :: 0 <= i < |t| ==> t[i] == msg[p + i];
      assert t[1..|t| - 1] == msg[p + 1..q];
    }
  }

  lemma WellFormedIsDirective(msg: string, p: nat, t: string, spec: Spec)
    requires p < |msg| && t <= msg[p..] && WellFormed(t, spec)
    ensures First(msg, p).0 == Directive(t, spec)
  {
    assert msg[p] == t[0] == '%' && msg[p + 1] == t[1];
    assert t == msg[p..p + |t|];
    if |t| > 2 || SimpleSpec(t[1]) != Some(spec) {
      LongDirective(msg, p, t, spec);
    }
  }

  lemma LongDirective(msg: string, p: nat, t: string, spec: Spec)
    requires p + |t| <= |msg| && t == msg[p..p + |t|] && WellFormed(t, spec)
    requires |t| > 2 || SimpleSpec(t[1]) != Some(spec)
    ensures SpecAt(msg, p + 1) == (Some(spec), p + |t|)
    ensures IsDigit(msg[p + 1])
  {
    var q := p + |t| - 1;
    assert forall i :: 0 <= i < |t| ==> msg[p + i] == t[i];
    assert msg[p + 1..q] == t[1..|t| - 1];
    assert IsDigit(t[1..|t| - 1][0]) && t[1..|t| - 1][0] == msg[p + 1];
    assert msg[q] == t[|t| - 1] == 'e';
    DigitsEndAt(msg, p + 1, q);
  }

  /** What looks like a directive but is none is kept up to the first character that is no digit. */
  lemma FailedDirective(msg: string, p: nat, digits: string, c: char)
    requires p < |msg| && "%" + digits + [c] <= msg[p..] && AllDigits(digits) && !IsDigit(c)
    requires !(digits == [] && c == '%') && forall spec :: !WellFormed("%" + digits + [c], spec)
    ensures Scan(msg, p) == [Literal("%" + digits + [c])] + Scan(msg, p + |digits| + 2)
  {
    var t := "%" + digits + [c];
    assert forall i :: 0 <= i < |t| ==> msg[p + i] == t[i];
    assert msg[p..p + |t|] == t;
    FailedSpec(msg, p, digits, c);
    hide SpecAt, WellFormed;
    assert digits != [] ==> IsDigit(digits[0]) && msg[p + 1] == digits[0];
    assert First(msg, p) == (Literal(t), p + |t|);
  }

  lemma FailedSpec(msg: string, p: nat, digits: string, c: char)
    requires p + |digits| + 2 <= |msg| && msg[p + 1..p + |digits| + 2] == digits + [c]
    requires AllDigits(digits) && !IsDigit(c) && forall spec :: !WellFormed("%" + digits + [c], spec)
    ensures SpecAt(msg, p + 1) == (None, p + |digits| + 2)
  {
    var q, t := p + 1 + |digits|, "%" + digits + [c];
    assert forall i :: 0 <= i <= |digits| ==> msg[p + 1 + i] == (digits + [c])[i];
    assert msg[p + 1..q] == msg[p + 1..q + 1][..|digits|] == digits;
    assert msg[q] == (digits + [c])[|digits|] == c;
    DigitsEndAt(msg, p + 1, q);
    if digits == [] {
      NotALetter(t, c);
    } else {
      assert IsDigit(digits[0]);
      NotAnExponent(t, digits, c);
    }
  }

  lemma NotAnExponent(t: string, digits: string, c: char)
    requires t == "%" + digits + [c] && digits != [] && AllDigits(digits) && forall spec :: !WellFormed(t, spec)
    ensures c != 'e' || Value(digits) >= 0x1_0000
  {
    if c == 'e' && Value(digits) < 0x1_0000 {
      assert t[1..|t| - 1] == digits;
      assert WellFormed(t, ExponentialFormat(Value(digits)));
    }
  }

  lemma NotALetter(t: string, c: char)
    requires t == "%" + [] + [c] && forall spec :: !WellFormed(t, spec)
    ensures SimpleSpec(c).None?
  {
    if SimpleSpec(c).Some? {
      assert WellFormed(t, SimpleSpec(c).value);
    }
  }

  /** So is one that the message breaks off. */
  lemma BrokenDirective(msg: string, p: nat)
    requires p < |msg| && msg[p] == '%' && AllDigits(msg[p + 1..])
    ensures Scan(msg, p) == [Literal(msg[p..])]
  {
    if p + 1 < |msg| {
      assert IsDigit(msg[p + 1..][0]);
      var q := DigitsEnd(msg, p + 1);
      assert msg[p..q] == msg[p..];
    } else {
      assert msg[p..] == [msg[p]];
    }
  }

  // ---------- filling in values ----------

  /** The text of the pieces, with values taken in order as directives are met. */
  function Fill<V>(show: (V, Spec) -> string, ps: seq<Piece>, values: seq<V>): string
    decreases |ps|
  {
    if ps == [] then []
    else if ps[0].Directive? && values != [] then show(values[0], ps[0].spec) + Fill(show, ps[1..], values[1..])
    else ps[0].text + Fill(show, ps[1..], values)
  }

  function CountDirectives(ps: seq<Piece>): nat {
    if ps == [] then 0 else (if ps[0].Directive? then 1 else 0) + CountDirectives(ps[1..])
  }

  function Surplus<V>(ps: seq<Piece>, values: seq<V>): seq<V> {
    if CountDirectives(ps) <= |values| then values[CountDirectives(ps)..] else []
  }

  /** Values that no directive takes follow at the end, separated by blanks. */
  function AppendSurplus<V>(show: (V, Spec) -> string, out: string, values: seq<V>): string
    decreases |values|
  {
    if values == [] then out
    else AppendSurplus(show, (if |out| > 0 then out + " " else out) + show(values[0], StringFormat), values[1..])
  }

  function Format<V>(show: (V, Spec) -> string, msg: string, values: seq<V>): string {
    var ps := Scan(msg, ScanStart(msg));
    AppendSurplus(show, Fill(show, ps, values), Surplus(ps, values))
  }

  function BlankSeparated<V>(show: (V, Spec) -> string, values: seq<V>): string
    decreases |values|
  {
    if values == [] then [] else " " + show(values[0], StringFormat) + BlankSeparated(show, values[1..])
  }

  /** After any output, each surplus value follows in order, with a blank before it. */
  lemma {:induction false} SurplusFollows<V>(show: (V, Spec) -> string, out: string, values: seq<V>)
    requires out != []
    ensures AppendSurplus(show, out, values) == out + BlankSeparated(show, values)
    decreases |values|
  {
    if values != [] {
      SurplusFollows(show, out + " " + show(values[0], StringFormat), values[1..]);
    }
  }

  /** What one piece turns into when `rank` directives precede it. */
  function Shown<V>(show: (V, Spec) -> string, p: Piece, rank: nat, values: seq<V>): string {
    if p.Directive? && rank < |values| then show(values[rank], p.spec) else p.text
  }

  /** The pieces' texts, the directive with `rank` directives before it replaced by the value of that index. */
  function ByRank<V>(show: (V, Spec) -> string, ps: seq<Piece>, rank: nat, values: seq<V>): string
    decreases |ps|
  {
    if ps == [] then []
    else Shown(show, ps[0], rank, values) + ByRank(show, ps[1..], rank + CountDirectives([ps[0]]), values)
  }

  lemma CountOne(p: Piece)
    ensures CountDirectives([p]) == if p.Directive? then 1 else 0
  {
  }

  /** The values from `rank` on. */
  function From<V>(values: seq<V>, rank: nat): seq<V> {
    if rank <= |values| then values[rank..] else []
  }

  /** The i-th directive becomes the i-th value; directives beyond the values stay verbatim. */
  lemma {:induction false} FillIsByRank<V>(show: (V, Spec) -> string, ps: seq<Piece>, rank: nat, values: seq<V>)
    ensures Fill(show, ps, From(values, rank)) == ByRank(show, ps, rank, values)
    decreases |ps|
  {
    if ps != [] {
      CountOne(ps[0]);
      hide CountDirectives;
      FillIsByRank(show, ps[1..], if ps[0].Directive? then rank + 1 else rank, values);
      assert From(values, rank + 1) == if rank < |values| then From(values, rank)[1..] else [];
    }
  }

  /**
   The whole output: the pieces with the i-th directive replaced by the i-th value, and then the values that
   no directive took, each after a blank.
   */
  lemma OutputIsByRank<V>(show: (V, Spec) -> string, msg: string, values: seq<V>)
    ensures var ps := Scan(msg, ScanStart(msg));
            var text := ByRank(show, ps, 0, values);
            && (text != [] ==> Format(show, msg, values) == text + BlankSeparated(show, From(values, CountDirectives(ps))))
            && (text == [] && values != [] && CountDirectives(ps) == 0 && show(values[0], StringFormat) != [] ==>
                  Format(show, msg, values) == show(values[0], StringFormat) + BlankSeparated(show, values[1..]))
  {
    var ps := Scan(msg, ScanStart(msg));
    FillIsByRank(show, ps, 0, values);
    assert From(values, 0) == values;
    var text := ByRank(show, ps, 0, values);
    if text != [] {
      SurplusFollows(show, text, Surplus(ps, values));
    } else if values != [] && CountDirectives(ps) == 0 && show(values[0], StringFormat) != [] {
      assert Surplus(ps, values) == values && text == [];
      assert [] + show(values[0], StringFormat) == show(values[0], StringFormat);
      assert AppendSurplus(show, [], values) == AppendSurplus(show, show(values[0], StringFormat), values[1..]);
      SurplusFollows(show, show(values[0], StringFormat), values[1..]);
    }
  }

  lemma {:induction false} FillNothing<V>(show: (V, Spec) -> string, ps: seq<Piece>)
    ensures Fill(show, ps, []) == Text(ps)
    decreases |ps|
  {
    if ps != [] {
      FillNothing(show, ps[1..]);
    }
  }

  /** Without values the message is printed as it is, unless it starts with a byte-order mark. */
  lemma NoValuesPrintMessage<V>(show: (V, Spec) -> string, msg: string)
    ensures Format(show, msg, []) == msg[ScanStart(msg)..]
    ensures Format(show, msg, []) == msg <==> msg == [] || msg[0] != BOM
  {
    var ps := Scan(msg, ScanStart(msg));
    FillNothing(show, ps);
    ScanIsLossless(msg, ScanStart(msg));
    assert Surplus<V>(ps, []) == [];
  }

  /** A percent sign before another one is printed, and the other one starts afresh. */
  lemma DoublePercentIsKept(msg: string, p: nat)
    requires p + 1 < |msg| && msg[p] == '%' && msg[p + 1] == '%'
    ensures Scan(msg, p) == [Literal("%")] + Scan(msg, p + 1)
    ensures |msg| == p + 2 ==> Text(Scan(msg, p)) == "%%"
  {
    ScanIsLossless(msg, p);
    assert First(msg, p) == (Literal("%"), p + 1);
    if |msg| == p + 2 {
      assert msg[p..] == "%%";
    }
  }

  // ---------- the code ----------

  /** Reads the characters of a directive; `end` is the scanner's position afterwards. */
  method FormatSpecFromChars(msg: string, start: nat) returns (spec: Option<Spec>, end: nat)
    requires start < |msg|
    ensures (spec, end) == SpecAt(msg, start)
  {
    var fmtChar := msg[start];
    end := start + 1;
    match fmtChar {
      case 's' => return Some(StringFormat), end;
      case 'd' => return Some(NumberFormat), end;
      case 'i' => return Some(IntegerFormat), end;
      case 'o' => return Some(ObjectFormat), end;
      case 'e' => return Some(ExponentialFormat(-1)), end;
      case 'x' => return Some(HexadecimalFormat), end;
      case _ =>
    }
    var i := start;
    while i < |msg|
      invariant start <= i <= |msg|
      invariant AllDigits(msg[start..i])
      invariant DigitsEnd(msg, i) == DigitsEnd(msg, start)
    {
      var c := msg[i];
      if c == 'e' {
        end := i + 1;
        var precision := Value(msg[start..i]);
        if precision >= 0x1_0000 {
          return None, end;
        }
        return Some(ExponentialFormat(precision)), end;
      }
      if !IsDigit(c) {
        return None, i + 1;
      }
      assert msg[start..i + 1] == msg[start..i] + [c];
      i := i + 1;
    }
    return None, i;
  }

  /** What one more piece adds to the output, and what it leaves of the values. */
  lemma FillPiece<V>(show: (V, Spec) -> string, p: Piece, rest: seq<Piece>, values: seq<V>)
    ensures var taken := p.Directive? && values != [];
            && Fill(show, [p] + rest, values)
               == (if taken then show(values[0], p.spec) + Fill(show, rest, values[1..])
                   else p.text + Fill(show, rest, values))
            && Surplus([p] + rest, values) == Surplus(rest, if taken then values[1..] else values)
  {
  }

  /** Having written `out` up to offset `at`, with `values` left, completes to the output for all of the message. */
  ghost predicate Completes<V>(
    show: (V, Spec) -> string, msg: string, args: seq<V>, at: nat, out: string, values: seq<V>)
  {
    && at <= |msg|
    && out + Fill(show, Scan(msg, at), values) == Fill(show, Scan(msg, ScanStart(msg)), args)
    && Surplus(Scan(msg, at), values) == Surplus(Scan(msg, ScanStart(msg)), args)
  }

  lemma CompletesNext<V>(show: (V, Spec) -> string, msg: string, args: seq<V>, at: nat, out: string, values: seq<V>)
    requires at < |msg| && Completes(show, msg, args, at, out, values)
    ensures var (piece, end) := First(msg, at);
            if piece.Directive? && values != []
            then Completes(show, msg, args, end, out + show(values[0], piece.spec), values[1..])
            else Completes(show, msg, args, end, out + piece.text, values)
  {
    hide Fill, Surplus;
    var (piece, end) := First(msg, at);
    var rest := Scan(msg, end);
    FillPiece(show, piece, rest, values);
    if piece.Directive? && values != [] {
      assert out + (show(values[0], piece.spec) + Fill(show, rest, values[1..]))
          == (out + show(values[0], piece.spec)) + Fill(show, rest, values[1..]);
    } else {
      assert out + (piece.text + Fill(show, rest, values)) == (out + piece.text) + Fill(show, rest, values);
    }
  }

  lemma CompletesStart<V>(show: (V, Spec) -> string, msg: string, args: seq<V>)
    ensures Completes(show, msg, args, ScanStart(msg), [], args)
  {
  }

  lemma CompletesEnd<V>(show: (V, Spec) -> string, msg: string, args: seq<V>, out: string, values: seq<V>)
    requires Completes(show, msg, args, |msg|, out, values)
    ensures Format(show, msg, args) == AppendSurplus(show, out, values)
  {
    assert Scan(msg, |msg|) == [];
    assert out + [] == out;
  }

  lemma WithPercent(msg: string, start: nat, end: nat)
    requires 0 < start <= end <= |msg| && msg[start - 1] == '%'
    ensures msg[start - 1..end] == "%" + msg[start..end]
  {
    assert msg[start - 1..end] == [msg[start - 1]] + msg[start..end];
  }

  method ConsoleFormat<V>(show: (V, Spec) -> string, fmtMsg: string, args: seq<V>) returns (out: string)
    ensures out == Format(show, fmtMsg, args)
  {
    hide Completes, Format, Scan, SpecAt;
    var values := args;
    var pos := ScanStart(fmtMsg);
    var expectFmt := false;
    out := [];
    CompletesStart(show, fmtMsg, args);
    while pos < |fmtMsg|
      invariant pos <= |fmtMsg|
      invariant expectFmt ==> 0 < pos < |fmtMsg| && fmtMsg[pos - 1] == '%' && fmtMsg[pos] != '%'
      invariant Completes(show, fmtMsg, args, if expectFmt then pos - 1 else pos, out, values)
      decreases |fmtMsg| - pos, !expectFmt
    {
      CompletesNext(show, fmtMsg, args, if expectFmt then pos - 1 else pos, out, values);
      if expectFmt {
        expectFmt := false;
        var start := pos;
        var spec, end := FormatSpecFromChars(fmtMsg, start);
        pos := end;
        WithPercent(fmtMsg, start, end);
        if spec.Some? {
          if |values| > 0 {
            out := out + show(values[0], spec.value);
            values := values[1..];
          } else {
            out := out + ("%" + fmtMsg[start..end]);
          }
        } else {
          out := out + ("%" + fmtMsg[start..end]);
        }
      } else {
        var tok := fmtMsg[pos];
        pos := pos + 1;
        if tok == '%' {
          if pos == |fmtMsg| {
            out := out + [tok];
          } else if fmtMsg[pos] == '%' {
            out := out + "%";
          } else {
            expectFmt := true;
          }
        } else {
          out := out + [tok];
        }
      }
    }
    CompletesEnd(show, fmtMsg, args, out, values);
    ghost var filled := out;
    for i := 0 to |values|
      invariant AppendSurplus(show, out, values[i..]) == AppendSurplus(show, filled, values)
    {
      assert values[i..][1..] == values[i + 1..];
      if |out| > 0 {
        out := out + " ";
      }
      out := out + show(values[i], StringFormat);
    }
  }
}
