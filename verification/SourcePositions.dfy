/**
 From source offsets to lines and columns, and the source map's lazily filled table of them.
 */
module SourcePositions {
  import opened Prelude
  import opened SourceMap

  datatype LineCol = LineCol(line: nat, col: nat)

  const NEWLINE: Byte := 0x0a

  predicate Continuation(b: Byte) { 0x80 <= b <= 0xbf }

  /** The length of the UTF-8 rune at `i`, or 1 where the bytes are not valid UTF-8. */
  function RuneLen(d: seq<Byte>, i: nat): (n: nat)
    requires i < |d|
    ensures 1 <= n <= |d| - i
    ensures forall k :: i < k < i + n ==> d[k] != NEWLINE
    ensures d[i] < 0x80 ==> n == 1
  {
    var b := d[i];
    if b < 0xc2 || b > 0xf4 then 1
    else if b < 0xe0 then
      if i + 1 < |d| && Continuation(d[i + 1]) then 2 else 1
    else if b < 0xf0 then
      var lo, hi := if b == 0xe0 then 0xa0 else 0x80, if b == 0xed then 0x9f else 0xbf;
      if i + 2 < |d| && lo <= d[i + 1] <= hi && Continuation(d[i + 2]) then 3 else 1
    else
      var lo, hi := if b == 0xf0 then 0x90 else 0x80, if b == 0xf4 then 0x8f else 0xbf;
      if i + 3 < |d| && lo <= d[i + 1] <= hi && Continuation(d[i + 2]) && Continuation(d[i + 3]) then 4 else 1
  }

  /** Decoding runes from offset `p` on comes by offset `i`. */
  predicate Reaches(d: seq<Byte>, p: nat, i: nat)
    decreases i - p
  {
    p == i || (p < i && p < |d| && Reaches(d, p + RuneLen(d, p), i))
  }

  predicate RuneStart(d: seq<Byte>, i: nat) { Reaches(d, 0, i) }

  /** How many newlines precede offset `i`. */
  function Newlines(d: seq<Byte>, i: nat): nat
    requires i <= |d|
  {
    if i == 0 then 0 else Newlines(d, i - 1) + (if d[i - 1] == NEWLINE then 1 else 0)
  }

  /** The offset of the last newline before `i`, or 0. */
  function LastNewline(d: seq<Byte>, i: nat): (r: nat)
    requires i <= |d|
    ensures r <= i
  {
    if i == 0 then 0 else if d[i - 1] == NEWLINE then i - 1 else LastNewline(d, i - 1)
  }

  /** What the table says of offset `i`: only the first byte of a rune has a position. */
  function Position(d: seq<Byte>, i: nat): LineCol
    requires i < |d|
  {
    if RuneStart(d, i)
    then LineCol((1 + Newlines(d, i)) % TWO_32, (i - LastNewline(d, i)) % TWO_32)
    else LineCol(0, 0)
  }

  function Table(d: seq<Byte>): (t: seq<LineCol>)
    ensures |t| == |d|
  {
    seq(|d|, i requires 0 <= i < |d| => Position(d, i))
  }

  lemma {:induction false} ReachesStep(d: seq<Byte>, p: nat, i: nat)
    requires i < |d| && Reaches(d, p, i)
    ensures Reaches(d, p, i + RuneLen(d, i))
    ensures forall k :: i < k < i + RuneLen(d, i) ==> !Reaches(d, p, k)
    decreases i - p
  {
    if p < i {
      ReachesStep(d, p + RuneLen(d, p), i);
      forall k | i < k < i + RuneLen(d, i) ensures !Reaches(d, p, k) {
        assert !Reaches(d, p + RuneLen(d, p), k);
      }
    } else {
      assert Reaches(d, i + RuneLen(d, i), i + RuneLen(d, i));
    }
  }

  lemma {:induction false} RuneKeepsLine(d: seq<Byte>, i: nat, k: nat)
    requires i < k <= |d| && forall j :: i < j < k ==> d[j] != NEWLINE
    ensures Newlines(d, k) == Newlines(d, i) + (if d[i] == NEWLINE then 1 else 0)
    ensures LastNewline(d, k) == if d[i] == NEWLINE then i else LastNewline(d, i)
    decreases k
  {
    if k > i + 1 {
      RuneKeepsLine(d, i, k - 1);
    }
  }

  method LoadLineColData(dat: seq<Byte>) returns (r: seq<LineCol>)
    ensures r == Table(dat)
  {
    hide Reaches, Newlines, LastNewline, RuneLen;
    var out := new LineCol[|dat|](_ => LineCol(0, 0));
    TextStart(dat);
    var line: nat := 1;
    var lastLinePos: nat := 0;
    var i: nat := 0;
    while i < |dat|
      invariant i <= |dat| && RuneStart(dat, i)
      invariant line == (1 + Newlines(dat, i)) % TWO_32
      invariant lastLinePos == LastNewline(dat, i) % TWO_32
      invariant forall k :: 0 <= k < i ==> out[k] == Position(dat, k)
      invariant forall k :: i <= k < |dat| ==> out[k] == LineCol(0, 0)
    {
      ReachesStep(dat, 0, i);
      var next := i + RuneLen(dat, i);
      RuneKeepsLine(dat, i, next);
      assert forall k :: i < k < next ==> !RuneStart(dat, k);
      var col := (i % TWO_32 - lastLinePos) % TWO_32;
      SubtractMod(i, LastNewline(dat, i));
      out[i] := LineCol(line, col);
      if dat[i] == NEWLINE {
        lastLinePos := i % TWO_32;
        AddMod(1 + Newlines(dat, i));
        line := (line + 1) % TWO_32;
      }
      i := next;
    }
    assert out[..] == Table(dat);
    return out[..];
  }

  lemma TextStart(d: seq<Byte>)
    ensures RuneStart(d, 0) && Newlines(d, 0) == 0 && LastNewline(d, 0) == 0
  {
  }

  lemma SubtractMod(a: nat, b: nat)
    ensures (a % TWO_32 - b % TWO_32) % TWO_32 == (a - b) % TWO_32
  {
  }

  lemma AddMod(a: nat)
    ensures (a % TWO_32 + 1) % TWO_32 == (a + 1) % TWO_32
  {
  }

  // ---------- a position identifies its offset ----------

  predicate Before(a: LineCol, b: LineCol) {
    a.line < b.line || (a.line == b.line && a.col < b.col)
  }

  lemma {:induction false} LinesGrow(d: seq<Byte>, i: nat, j: nat)
    requires i <= j <= |d|
    ensures Newlines(d, i) <= Newlines(d, j) <= Newlines(d, i) + (j - i)
    ensures Newlines(d, i) == Newlines(d, j) ==> LastNewline(d, i) == LastNewline(d, j)
    decreases j
  {
    if i < j {
      LinesGrow(d, i, j - 1);
    }
  }

  /** Positions of runes grow strictly with their offset, up to where lines and columns wrap around at 2^32. */
  lemma PositionsIncrease(d: seq<Byte>, i: nat, j: nat)
    requires i < j < |d| && j < TWO_32 - 1 && RuneStart(d, i) && RuneStart(d, j)
    ensures Before(Table(d)[i], Table(d)[j])
  {
    LinesGrow(d, 0, j);
    LinesGrow(d, i, j);
    hide Newlines, LastNewline, RuneStart;
    assert (1 + Newlines(d, i)) % TWO_32 == 1 + Newlines(d, i) && (1 + Newlines(d, j)) % TWO_32 == 1 + Newlines(d, j);
    assert (i - LastNewline(d, i)) % TWO_32 == i - LastNewline(d, i);
    assert (j - LastNewline(d, j)) % TWO_32 == j - LastNewline(d, j);
  }

  lemma {:induction false} SingleBytesAreRunes(d: seq<Byte>, p: nat, i: nat)
    requires p <= i <= |d| && forall k :: 0 <= k < |d| ==> d[k] < 0x80
    ensures Reaches(d, p, i)
    decreases i - p
  {
    if p < i {
      SingleBytesAreRunes(d, p + 1, i);
    }
  }

  /** In single-byte text, different offsets have different positions. */
  lemma PositionsIdentifyOffsets(d: seq<Byte>, i: nat, j: nat)
    requires i < |d| && j < |d| && i < TWO_32 - 1 && j < TWO_32 - 1 && forall k :: 0 <= k < |d| ==> d[k] < 0x80
    ensures Table(d)[i] == Table(d)[j] <==> i == j
  {
    SingleBytesAreRunes(d, 0, i);
    SingleBytesAreRunes(d, 0, j);
    if i < j {
      PositionsIncrease(d, i, j);
    } else if j < i {
      PositionsIncrease(d, j, i);
    }
  }

  // ---------- runes are the characters of UTF-8 text ----------

  /** The UTF-8 encoding of a character (RFC 3629, section 3). */
  function Utf8(c: char): (r: seq<Byte>)
    ensures 1 <= |r| <= 4
  {
    var n := c as int;
    if n < 0x80 then [n]
    else if n < 0x800 then [0xc0 + n / 0x40, 0x80 + n % 0x40]
    else if n < 0x1_0000 then [0xe0 + n / 0x1000, 0x80 + n / 0x40 % 0x40, 0x80 + n % 0x40]
    else [0xf0 + n / 0x4_0000, 0x80 + n / 0x1000 % 0x40, 0x80 + n / 0x40 % 0x40, 0x80 + n % 0x40]
  }

  function Utf8Text(s: string): seq<Byte> {
    if s == [] then [] else Utf8Text(s[..|s| - 1]) + Utf8(s[|s| - 1])
  }

  /** Where the `k`-th character of a text is encoded. */
  function CharOffset(s: string, k: nat): nat
    requires k <= |s|
  {
    |Utf8Text(s[..k])|
  }

  /** An encoded character is one rune. */
  lemma CharIsRune(d: seq<Byte>, i: nat, c: char)
    requires i + |Utf8(c)| <= |d| && d[i..i + |Utf8(c)|] == Utf8(c)
    ensures RuneLen(d, i) == |Utf8(c)|
  {
    var e := Utf8(c);
    assert forall k :: 0 <= k < |e| ==> d[i + k] == e[k];
    EncodedBytes(c);
    hide Utf8;
  }

  /** The bytes of an encoded character, and how its second byte is limited. */
  lemma EncodedBytes(c: char)
    ensures var e := Utf8(c);
            && (forall k :: 1 <= k < |e| ==> Continuation(e[k]))
            && (|e| == 1 ==> e[0] < 0x80)
            && (|e| == 2 ==> 0xc2 <= e[0] < 0xe0)
            && (|e| == 3 ==> 0xe0 <= e[0] < 0xf0 && (e[0] == 0xe0 ==> e[1] >= 0xa0) && (e[0] == 0xed ==> e[1] <= 0x9f))
            && (|e| == 4 ==> 0xf0 <= e[0] <= 0xf4 && (e[0] == 0xf0 ==> e[1] >= 0x90) && (e[0] == 0xf4 ==> e[1] <= 0x8f))
  {
  }

  lemma SixBits(hi: nat, lo: nat)
    requires lo < 0x40
    ensures (0x40 * hi + lo) / 0x40 == hi && (0x40 * hi + lo) % 0x40 == lo
  {
  }

  lemma DivideTwice(n: nat)
    ensures n / 0x1000 == n / 0x40 / 0x40 && n / 0x4_0000 == n / 0x1000 / 0x40
  {
  }

  /** The character whose encoding has these payloads of six bits and less. */
  function CharOf(a: nat, b: nat, c: nat, d: nat): nat {
    0x40 * (0x40 * (0x40 * a + b) + c) + d
  }

  lemma CharOfParts(a: nat, b: nat, c: nat, d: nat)
    requires b < 0x40 && c < 0x40 && d < 0x40
    ensures var n := CharOf(a, b, c, d);
            n % 0x40 == d && n / 0x40 % 0x40 == c && n / 0x1000 % 0x40 == b && n / 0x4_0000 == a
    ensures var n := CharOf(a, b, c, d); n / 0x1000 == 0x40 * a + b && n / 0x40 == 0x40 * (0x40 * a + b) + c
  {
    DivideTwice(CharOf(a, b, c, d));
    SixBits(0x40 * (0x40 * a + b) + c, d);
    SixBits(0x40 * a + b, c);
    SixBits(a, b);
  }

  /** A rune of more than one byte is an encoded character. */
  lemma RuneIsChar(d: seq<Byte>, i: nat) returns (c: char)
    requires i < |d| && RuneLen(d, i) > 1
    ensures Utf8(c) == d[i..i + RuneLen(d, i)]
  {
    var e := d[i..i + RuneLen(d, i)];
    assert forall k :: 0 <= k < |e| ==> e[k] == d[i + k];
    if |e| == 2 {
      c := TwoBytes(e[0], e[1]);
    } else if |e| == 3 {
      c := ThreeBytes(e[0], e[1], e[2]);
    } else {
      c := FourBytes(e[0], e[1], e[2], e[3]);
    }
  }

  lemma TwoBytes(a: Byte, b: Byte) returns (c: char)
    requires 0xc2 <= a < 0xe0 && Continuation(b)
    ensures Utf8(c) == [a, b]
  {
    CharOfParts(0, 0, a - 0xc0, b - 0x80);
    c := CharOf(0, 0, a - 0xc0, b - 0x80) as char;
  }

  lemma ThreeBytes(a: Byte, b: Byte, c: Byte) returns (r: char)
    requires 0xe0 <= a < 0xf0 && Continuation(b) && Continuation(c)
    requires (a == 0xe0 ==> b >= 0xa0) && (a == 0xed ==> b <= 0x9f)
    ensures Utf8(r) == [a, b, c]
  {
    CharOfParts(0, a - 0xe0, b - 0x80, c - 0x80);
    r := CharOf(0, a - 0xe0, b - 0x80, c - 0x80) as char;
  }

  lemma FourBytes(a: Byte, b: Byte, c: Byte, d: Byte) returns (r: char)
    requires 0xf0 <= a <= 0xf4 && Continuation(b) && Continuation(c) && Continuation(d)
    requires (a == 0xf0 ==> b >= 0x90) && (a == 0xf4 ==> b <= 0x8f)
    ensures Utf8(r) == [a, b, c, d]
  {
    CharOfParts(a - 0xf0, b - 0x80, c - 0x80, d - 0x80);
    r := CharOf(a - 0xf0, b - 0x80, c - 0x80, d - 0x80) as char;
  }

  lemma {:induction false} TextPrefix(s: string, k: nat)
    requires k <= |s|
    ensures Utf8Text(s[..k]) <= Utf8Text(s)
    decreases |s|
  {
    hide Utf8;
    if k == |s| {
      assert s[..k] == s;
    } else {
      TextPrefix(s[..|s| - 1], k);
      assert s[..|s| - 1][..k] == s[..k];
    }
  }

  lemma EncodedChar(s: string, k: nat)
    requires k < |s|
    ensures CharOffset(s, k + 1) == CharOffset(s, k) + |Utf8(s[k])| <= |Utf8Text(s)|
    ensures Utf8Text(s)[CharOffset(s, k)..CharOffset(s, k + 1)] == Utf8(s[k])
  {
    hide Utf8;
    TextPrefix(s, k + 1);
    var t := s[..k + 1];
    assert t[..k] == s[..k] && t[k] == s[k] && |t| == k + 1;
    assert Utf8Text(t) == Utf8Text(s[..k]) + Utf8(s[k]);
    hide Utf8Text;
    SliceOfPrefix(Utf8Text(s[..k]), Utf8(s[k]), Utf8Text(s));
  }

  lemma SliceOfPrefix(a: seq<Byte>, b: seq<Byte>, t: seq<Byte>)
    requires a + b <= t
    ensures t[|a|..|a| + |b|] == b
  {
    assert t[..|a| + |b|] == a + b;
  }

  /** In UTF-8 text the runes start exactly where characters do. */
  lemma {:induction false} CharsAreRunes(s: string, k: nat)
    requires k <= |s|
    ensures RuneStart(Utf8Text(s), CharOffset(s, k))
    ensures k < |s| ==> forall i :: CharOffset(s, k) < i < CharOffset(s, k + 1) ==> !RuneStart(Utf8Text(s), i)
    decreases k
  {
    hide Utf8, RuneLen, Reaches, Utf8Text, CharOffset;
    var d := Utf8Text(s);
    if k == 0 {
      TextStart(d);
      NoChars(s);
    } else {
      CharsAreRunes(s, k - 1);
      EncodedChar(s, k - 1);
      CharIsRune(d, CharOffset(s, k - 1), s[k - 1]);
      ReachesStep(d, 0, CharOffset(s, k - 1));
    }
    if k < |s| {
      EncodedChar(s, k);
      CharIsRune(d, CharOffset(s, k), s[k]);
      ReachesStep(d, 0, CharOffset(s, k));
    }
  }

  lemma NoChars(s: string)
    ensures CharOffset(s, 0) == 0
  {
  }

  // ---------- the lazy table ----------

  /** A file system that does not change: each path has fixed content, or cannot be read. */
  type Files = string -> Option<seq<Byte>>

  datatype Info = Found(source: string, line: nat, col: nat) | LoadError(path: string)

  /** What a program counter denotes, computed from scratch. */
  function InfoAt(files: Files, paths: map<nat, string>, instr: seq<InstrMapping>, pc: nat): Info {
    if pc >= |instr| then Found("invalid", 0, 0)
    else
      var m := instr[pc];
      if m.f < 0 || m == ZERO_MAPPING then Found("generated", 0, 0)
      else if m.f !in paths then Found("unknown", 0, 0)
      else
        var source := paths[m.f];
        if m.s < 0 then Found(source, 0, 0)
        else
          match files(source)
          case None => LoadError(source)
          case Some(d) =>
            if m.s >= |d| then Found(source, 0, 0)
            else Found(source, Table(d)[m.s].line, Table(d)[m.s].col)
  }

  lemma {:induction false} NewlinesCount(d: seq<Byte>, i: nat)
    requires i <= |d|
    ensures Newlines(d, i) == multiset(d[..i])[NEWLINE] <= i
  {
    if i > 0 {
      NewlinesCount(d, i - 1);
      assert d[..i] == d[..i - 1] + [d[i - 1]];
    }
  }

  lemma {:induction false} LastNewlineIsLast(d: seq<Byte>, i: nat)
    requires i <= |d|
    ensures var p := LastNewline(d, i);
            && (p == 0 || d[p] == NEWLINE)
            && (forall k :: p < k < i ==> d[k] != NEWLINE)
    decreases i
  {
    if i > 0 {
      LastNewlineIsLast(d, i - 1);
    }
  }

  /** The mapping points at a byte of a file that can be read. */
  predicate PointsInto(files: Files, paths: map<nat, string>, m: InstrMapping, d: seq<Byte>) {
    m != ZERO_MAPPING && m.f >= 0 && m.f in paths && files(paths[m.f]) == Some(d) && 0 <= m.s < |d|
  }

  /**
   The position of a rune: the path that its mapping names, one plus the number of newlines before it, and
   the distance to the last newline before it, or to the start of the text.
   */
  lemma FoundPosition(files: Files, paths: map<nat, string>, instr: seq<InstrMapping>, pc: nat, d: seq<Byte>)
    requires pc < |instr| && PointsInto(files, paths, instr[pc], d) && RuneStart(d, instr[pc].s)
    ensures var r, s := InfoAt(files, paths, instr, pc), instr[pc].s;
            && r.Found? && r.source == paths[instr[pc].f]
            && r.line == 1 + multiset(d[..s])[NEWLINE]
            && r.col <= s && (r.col == s || d[s - r.col] == NEWLINE)
            && (forall k :: s - r.col < k < s ==> d[k] != NEWLINE)
  {
    var s: nat := instr[pc].s;
    NewlinesCount(d, s);
    LastNewlineIsLast(d, s);
    hide Newlines, LastNewline, RuneStart;
    assert (1 + Newlines(d, s)) % TWO_32 == 1 + Newlines(d, s);
    assert (s - LastNewline(d, s)) % TWO_32 == s - LastNewline(d, s);
  }

  /** Everything else has no position: line and column are zero, and the source says why where it can. */
  lemma NoPosition(files: Files, paths: map<nat, string>, instr: seq<InstrMapping>, pc: nat)
    ensures pc >= |instr| ==> InfoAt(files, paths, instr, pc) == Found("invalid", 0, 0)
    ensures pc < |instr| ==>
              var r, m := InfoAt(files, paths, instr, pc), instr[pc];
              if m.f < 0 || m == InstrMapping(0, 0, 0, 0 as char, 0) then r == Found("generated", 0, 0)
              else
                && (m.f !in paths ==> r == Found("unknown", 0, 0))
                && (m.f in paths ==>
                      && (m.s < 0 ==> r == Found(paths[m.f], 0, 0))
                      && (m.s >= 0 && files(paths[m.f]).None? ==> r == LoadError(paths[m.f]))
                      && (files(paths[m.f]).Some? && m.s >= |files(paths[m.f]).value| ==> r == Found(paths[m.f], 0, 0)))
    ensures forall d :: pc < |instr| && PointsInto(files, paths, instr[pc], d) && !RuneStart(d, instr[pc].s) ==>
              InfoAt(files, paths, instr, pc) == Found(paths[instr[pc].f], 0, 0)
  {
  }

  class CachedMap {
    const files: Files
    const paths: map<nat, string>
    const instr: seq<InstrMapping>
    var posData: map<nat, seq<LineCol>>

    constructor (files: Files, paths: map<nat, string>, instr: seq<InstrMapping>)
      ensures Valid() && this.files == files && this.paths == paths && this.instr == instr
    {
      this.files, this.paths, this.instr := files, paths, instr;
      posData := map[];
    }

    /** Every cached table is the table of the file it was loaded from. */
    ghost predicate Valid()
      reads this
    {
      forall id :: id in posData ==> id in paths && files(paths[id]).Some? && posData[id] == Table(files(paths[id]).value)
    }

    /** Whatever was asked before, the answer is the one computed from scratch. */
    method Lookup(pc: nat) returns (r: Info)
      requires Valid()
      modifies this
      ensures Valid()
      ensures r == InfoAt(files, paths, instr, pc)
      ensures forall id :: id in old(posData) ==> id in posData
    {
      if pc >= |instr| {
        return Found("invalid", 0, 0);
      }
      var m := instr[pc];
      if m.f < 0 || m == ZERO_MAPPING {
        return Found("generated", 0, 0);
      }
      var id: nat := m.f;
      if id !in paths {
        return Found("unknown", 0, 0);
      }
      var source := paths[id];
      if m.s < 0 {
        return Found(source, 0, 0);
      }
      var table;
      if id in posData {
        table := posData[id];
      } else {
        var dat := files(source);
        if dat.None? {
          return LoadError(source);
        }
        table := LoadLineColData(dat.value);
        posData := posData[id := table];
      }
      if m.s >= |table| {
        return Found(source, 0, 0);
      }
      return Found(source, table[m.s].line, table[m.s].col);
    }
  }
}
