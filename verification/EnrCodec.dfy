/**
 The "opstack" entry of an Ethereum Node Record (EIP-778): chain ID and version as variable-length
 integers inside an RLP byte string (Appendix B of the Ethereum Yellow Paper).
 */
module EnrCodec {
  import opened Prelude

  const MAX_VARINT_LEN: nat := 10

  // ---------- variable-length integers ----------

  /** Seven bits to a byte, least significant first; the high bit marks all bytes but the last. */
  function Uvarint(x: nat): (r: seq<Byte>)
    ensures r != []
  {
    if x < 128 then [x] else [128 + x % 128] + Uvarint(x / 128)
  }

  function Pow128(k: nat): (r: nat)
    ensures r > 0
  {
    if k == 0 then 1 else 128 * Pow128(k - 1)
  }

  lemma {:induction false} UvarintLength(x: nat, k: nat)
    requires k > 0 && x < Pow128(k)
    ensures |Uvarint(x)| <= k
    decreases k
  {
    if x >= 128 {
      assert Pow128(k) == 128 * Pow128(k - 1);
      assert k > 1 by {
        assert Pow128(1) == 128 * Pow128(0);
      }
      UvarintLength(x / 128, k - 1);
    }
  }

  /** Nine bytes of seven bits and one more bit make 64 bits. */
  lemma NinePowers()
    ensures 2 * Pow128(9) == TWO_64
  {
  }

  lemma UvarintFits(x: U64)
    ensures |Uvarint(x)| <= MAX_VARINT_LEN
  {
    NinePowers();
    assert Pow128(10) == 128 * Pow128(9);
    UvarintLength(x, 10);
  }

  /** Reads a number of at most `room` bytes, the last of which may hold one bit only when all ten are used. */
  function ReadFrom(b: seq<Byte>, room: nat): Option<(nat, seq<Byte>)>
    decreases room
  {
    if room == 0 || b == [] then None
    else if b[0] < 128 then (if room == 1 && b[0] > 1 then None else Some((b[0], b[1..])))
    else
      match ReadFrom(b[1..], room - 1)
      case None => None
      case Some((x, rest)) => Some((b[0] - 128 + 128 * x, rest))
  }

  /** A 64-bit number and the bytes after it. */
  function ReadUvarintSpec(b: seq<Byte>): Option<(nat, seq<Byte>)> {
    ReadFrom(b, MAX_VARINT_LEN)
  }

  lemma {:induction false} ReadWritten(x: nat, room: nat, rest: seq<Byte>)
    requires room > 0 && x < 2 * Pow128(room - 1)
    ensures ReadFrom(Uvarint(x) + rest, room) == Some((x, rest))
    decreases room
  {
    var b := Uvarint(x) + rest;
    if x < 128 {
      assert b[1..] == rest;
      if room == 1 {
        assert Pow128(0) == 1;
      }
    } else {
      assert room > 1;
      assert Pow128(room - 1) == 128 * Pow128(room - 2);
      assert b[1..] == Uvarint(x / 128) + rest;
      ReadWritten(x / 128, room - 1, rest);
    }
  }

  /** Reading back a 64-bit number gives the number, whatever follows it. */
  lemma UvarintRoundTrip(x: U64, rest: seq<Byte>)
    ensures ReadUvarintSpec(Uvarint(x) + rest) == Some((x, rest))
  {
    NinePowers();
    ReadWritten(x, 10, rest);
  }

  /** The number that marked bytes stand for, least significant first. */
  function MarkedValue(b: seq<Byte>): int {
    if b == [] then 0 else b[0] - 128 + 128 * MarkedValue(b[1..])
  }

  /**
   What any bytes read as: marked bytes up to the first unmarked one, which counts on top, minimal or not.
   Too many bytes, too large a last byte and a missing last byte are errors.
   */
  lemma {:induction false} ReadMeans(marked: seq<Byte>, last: Byte, rest: seq<Byte>, room: nat)
    requires last < 128 && forall i :: 0 <= i < |marked| ==> marked[i] >= 128
    ensures ReadFrom(marked, room).None?
    ensures MarkedValue(marked) >= 0
    ensures ReadFrom(marked + [last] + rest, room)
         == if |marked| >= room || (|marked| == room - 1 && last > 1) then None
            else Some((MarkedValue(marked) + Pow128(|marked|) * last, rest))
    decreases |marked|
  {
    var b := marked + [last] + rest;
    if marked == [] {
      assert b[1..] == rest;
    } else {
      assert b[1..] == marked[1..] + [last] + rest;
      ReadMeans(marked[1..], last, rest, if room > 0 then room - 1 else 0);
      Pow128Times(|marked|, last);
    }
  }

  lemma Pow128Times(k: nat, n: nat)
    requires k > 0
    ensures Pow128(k) * n == 128 * (Pow128(k - 1) * n)
  {
  }

  lemma {:induction false} ReadBound(b: seq<Byte>, room: nat)
    requires ReadFrom(b, room).Some?
    ensures room > 0 && ReadFrom(b, room).value.0 < 2 * Pow128(room - 1)
    decreases room
  {
    if b[0] >= 128 {
      ReadBound(b[1..], room - 1);
    }
    assert room > 1 ==> Pow128(room - 1) == 128 * Pow128(room - 2);
  }

  /** Writes a number into a buffer at an offset; returns how many bytes it took. */
  method PutUvarint(buf: array<Byte>, offset: nat, x: U64) returns (n: nat)
    requires offset + MAX_VARINT_LEN <= buf.Length
    modifies buf
    ensures n == |Uvarint(x)| <= MAX_VARINT_LEN
    ensures buf[offset..offset + n] == Uvarint(x)
    ensures forall k :: 0 <= k < buf.Length && !(offset <= k < offset + n) ==> buf[k] == old(buf[k])
  {
    UvarintFits(x);
    var v: nat := x;
    n := 0;
    while v >= 128
      invariant n + |Uvarint(v)| == |Uvarint(x)|
      invariant buf[offset..offset + n] + Uvarint(v) == Uvarint(x)
      invariant forall k :: 0 <= k < buf.Length && !(offset <= k < offset + n) ==> buf[k] == old(buf[k])
    {
      hide Uvarint;
      FirstByte(v);
      ghost var before := buf[offset..offset + n];
      assert before + Uvarint(v) == (before + [128 + v % 128]) + Uvarint(v / 128);
      buf[offset + n] := 128 + v % 128;
      assert buf[offset..offset + n + 1] == before + [128 + v % 128];
      v := v / 128;
      n := n + 1;
    }
    LastByte(v);
    hide Uvarint;
    ghost var before := buf[offset..offset + n];
    buf[offset + n] := v;
    n := n + 1;
    assert buf[offset..offset + n] == before + [v];
  }

  lemma FirstByte(v: nat)
    requires v >= 128
    ensures Uvarint(v) == [128 + v % 128] + Uvarint(v / 128)
  {
  }

  lemma LastByte(v: nat)
    requires v < 128
    ensures Uvarint(v) == [v]
  {
  }

  function Times(a: nat, b: nat): nat { a * b }

  /** A number read so far, continued by what `r` read. */
  function Continue(x: nat, scale: nat, r: Option<(nat, seq<Byte>)>): Option<(nat, seq<Byte>)> {
    match r
    case None => None
    case Some((y, rest)) => Some((x + Times(scale, y), rest))
  }

  lemma ContinueNext(x: nat, scale: nat, b: seq<Byte>, room: nat)
    requires b != [] && b[0] >= 128 && room > 0
    ensures Continue(x, scale, ReadFrom(b, room))
         == Continue(x + Times(scale, b[0] - 128), Times(scale, 128), ReadFrom(b[1..], room - 1))
  {
    var c := b[0] - 128;
    if ReadFrom(b[1..], room - 1).Some? {
      var y := ReadFrom(b[1..], room - 1).value.0;
      assert scale * (c + 128 * y) == scale * c + (scale * 128) * y;
    }
  }

  lemma ContinueLast(x: nat, scale: nat, b: seq<Byte>, room: nat)
    requires b == [] || room == 0 || b[0] < 128
    ensures Continue(x, scale, ReadFrom(b, room))
         == if room == 0 || b == [] || (room == 1 && b[0] > 1) then None else Some((x + Times(scale, b[0]), b[1..]))
  {
  }

  lemma ContinueStart(b: seq<Byte>)
    ensures ReadUvarintSpec(b) == Continue(0, 1, ReadFrom(b, MAX_VARINT_LEN))
  {
  }

  /** Reads a number from `b` starting at `start`, as the reader of the varint package does. */
  method ReadUvarint(b: seq<Byte>, start: nat) returns (r: Option<nat>, end: nat)
    requires start <= |b|
    ensures end <= |b|
    ensures r.Some? <==> ReadUvarintSpec(b[start..]).Some?
    ensures r.Some? ==> ReadUvarintSpec(b[start..]) == Some((r.value, b[end..]))
  {
    hide ReadFrom, Continue, ReadUvarintSpec, Times;
    var x: nat, scale: nat := 0, 1;
    end := start;
    ContinueStart(b[start..]);
    for i := 0 to MAX_VARINT_LEN
      invariant end <= |b| && end == start + i
      invariant ReadUvarintSpec(b[start..]) == Continue(x, scale, ReadFrom(b[end..], MAX_VARINT_LEN - i))
    {
      if end == |b| {
        ContinueLast(x, scale, b[end..], MAX_VARINT_LEN - i);
        return None, end;
      }
      var c := b[end];
      assert b[end..][1..] == b[end + 1..];
      if c < 128 {
        ContinueLast(x, scale, b[end..], MAX_VARINT_LEN - i);
        if i == MAX_VARINT_LEN - 1 && c > 1 {
          return None, end + 1;
        }
        return Some(x + Times(scale, c)), end + 1;
      }
      ContinueNext(x, scale, b[end..], MAX_VARINT_LEN - i);
      end := end + 1;
      x := x + Times(scale, c - 128);
      scale := Times(scale, 128);
    }
    ContinueLast(x, scale, b[end..], 0);
    return None, end;
  }

  // ---------- RLP byte strings ----------

  function BigEndian(n: nat): (r: seq<Byte>)
    ensures r != []
  {
    if n < 256 then [n] else BigEndian(n / 256) + [n % 256]
  }

  function FromBigEndian(b: seq<Byte>): nat {
    if b == [] then 0 else 256 * FromBigEndian(b[..|b| - 1]) + b[|b| - 1]
  }

  lemma {:induction false} BigEndianRoundTrip(n: nat)
    ensures FromBigEndian(BigEndian(n)) == n
    ensures n > 0 ==> BigEndian(n)[0] != 0
  {
    if n < 256 {
      assert [n][..0] == [];
    } else {
      BigEndianRoundTrip(n / 256);
      assert BigEndian(n)[..|BigEndian(n)| - 1] == BigEndian(n / 256);
    }
  }

  lemma {:induction false} BigEndianLength(n: nat, k: nat)
    requires k > 0 && n < Pow256(k)
    ensures |BigEndian(n)| <= k
    decreases k
  {
    if n >= 256 {
      assert Pow256(k) == 256 * Pow256(k - 1);
      assert k > 1 by {
        assert Pow256(1) == 256 * Pow256(0);
      }
      BigEndianLength(n / 256, k - 1);
    }
  }

  function Pow256(k: nat): (r: nat)
    ensures r > 0
  {
    if k == 0 then 1 else 256 * Pow256(k - 1)
  }

  function RlpEncode(p: seq<Byte>): seq<Byte>
    requires |p| < TWO_64
  {
    if |p| == 1 && p[0] < 0x80 then p
    else if |p| <= 55 then [0x80 + |p|] + p
    else
      LengthFits(|p|);
      [0xb7 + |BigEndian(|p|)|] + BigEndian(|p|) + p
  }

  lemma EightBytes()
    ensures Pow256(8) == TWO_64
  {
    assert Pow256(2) == 256 * (256 * Pow256(0));
    assert Pow256(4) == 256 * (256 * Pow256(2));
    assert Pow256(6) == 256 * (256 * Pow256(4));
    assert Pow256(8) == 256 * (256 * Pow256(6));
  }

  lemma LengthFits(n: nat)
    requires n < TWO_64
    ensures |BigEndian(n)| <= 8
  {
    EightBytes();
    BigEndianLength(n, 8);
  }

  /** The byte string that is the whole of `s`; lists, non-canonical sizes and left-over bytes are errors. */
  function RlpDecode(s: seq<Byte>): Option<seq<Byte>> {
    if s == [] then None
    else
      var b := s[0];
      if b < 0x80 then (if |s| == 1 then Some(s) else None)
      else if b <= 0xb7 then
        var size := b - 0x80;
        if |s| != 1 + size || (size == 1 && s[1] < 0x80) then None else Some(s[1..])
      else if b < 0xc0 then
        var n := b - 0xb7;
        if |s| < 1 + n || s[1] == 0 then None
        else
          var size := FromBigEndian(s[1..1 + n]);
          if size < 56 || |s| != 1 + n + size then None else Some(s[1 + n..])
      else None
  }

  lemma RlpRoundTrip(p: seq<Byte>)
    requires |p| < TWO_64
    ensures RlpDecode(RlpEncode(p)) == Some(p)
  {
    if |p| > 55 {
      LengthFits(|p|);
      BigEndianRoundTrip(|p|);
      var be := BigEndian(|p|);
      var s := RlpEncode(p);
      assert s[1..1 + |be|] == be;
      assert s[1] == be[0];
      assert s[1 + |be|..] == p;
    }
  }

  lemma {:induction false} BigEndianUnique(b: seq<Byte>)
    requires b != [] && b[0] != 0
    ensures FromBigEndian(b) > 0 && BigEndian(FromBigEndian(b)) == b
    decreases |b|
  {
    var c, last := b[..|b| - 1], b[|b| - 1];
    assert b == c + [last];
    if c == [] {
      assert FromBigEndian(c) == 0;
    } else {
      BigEndianUnique(c);
      assert FromBigEndian(b) / 256 == FromBigEndian(c) && FromBigEndian(b) % 256 == last;
    }
  }

  lemma {:induction false} FromBigEndianBound(b: seq<Byte>)
    ensures FromBigEndian(b) < Pow256(|b|)
    decreases |b|
  {
    if b != [] {
      FromBigEndianBound(b[..|b| - 1]);
    }
  }

  lemma {:induction false} Pow256Monotone(a: nat, b: nat)
    requires a <= b
    ensures Pow256(a) <= Pow256(b)
    decreases b
  {
    if a < b {
      Pow256Monotone(a, b - 1);
    }
  }

  /** Only the one canonical encoding of a byte string is accepted. */
  lemma RlpIsCanonical(s: seq<Byte>)
    requires RlpDecode(s).Some?
    ensures |RlpDecode(s).value| < TWO_64 && RlpEncode(RlpDecode(s).value) == s
  {
    var p := RlpDecode(s).value;
    if 0xb7 < s[0] {
      var n := s[0] - 0xb7;
      var be := s[1..1 + n];
      FromBigEndianBound(be);
      Pow256Monotone(n, 8);
      EightBytes();
      BigEndianUnique(be);
      assert s == [s[0]] + be + p;
    } else if 0x80 <= s[0] {
      assert s == [s[0]] + p;
    }
  }

  /** Encodings as the Yellow Paper and the varint format give them. */
  lemma KnownEncodings()
    ensures Uvarint(1) == [0x01] && Uvarint(300) == [0xac, 0x02]
    ensures RlpEncode([]) == [0x80] && RlpEncode([0x0f]) == [0x0f] && RlpEncode([0x80]) == [0x81, 0x80]
    ensures RlpEncode([0x64, 0x6f, 0x67]) == [0x83, 0x64, 0x6f, 0x67]
    ensures forall p: seq<Byte> :: |p| == 56 ==> RlpEncode(p) == [0xb8, 56] + p
    ensures forall p: seq<Byte> :: |p| == 1024 ==> RlpEncode(p) == [0xb9, 0x04, 0x00] + p
  {
  }

  // ---------- the entry ----------

  /** What a record's entry says; None when it is malformed. */
  function DecodeEntry(s: seq<Byte>): Option<(nat, nat)> {
    match RlpDecode(s)
    case None => None
    case Some(b) =>
      match ReadUvarintSpec(b)
      case None => None
      case Some((chainID, rest)) =>
        match ReadUvarintSpec(rest)
        case None => None
        case Some((version, _)) => Some((chainID, version))
  }

  /** Decoding returns the encoded pair, also when later versions append data to the entry. */
  lemma EntryRoundTrip(chainID: U64, version: U64, extra: seq<Byte>)
    requires |extra| < TWO_64 - 2 * MAX_VARINT_LEN
    ensures |Uvarint(chainID) + Uvarint(version) + extra| < TWO_64
    ensures DecodeEntry(RlpEncode(Uvarint(chainID) + Uvarint(version) + extra)) == Some((chainID, version))
  {
    hide RlpDecode, RlpEncode, ReadUvarintSpec, Uvarint;
    UvarintFits(chainID);
    UvarintFits(version);
    var p := Uvarint(chainID) + Uvarint(version) + extra;
    RlpRoundTrip(p);
    assert p == Uvarint(chainID) + (Uvarint(version) + extra);
    UvarintRoundTrip(chainID, Uvarint(version) + extra);
    UvarintRoundTrip(version, extra);
  }

  class OpStackENRData {
    var chainID: U64
    var version: U64

    constructor (chainID: U64, version: U64)
      ensures this.chainID == chainID && this.version == version
    {
      this.chainID, this.version := chainID, version;
    }

    /** The pair always fits the buffer of twice the maximal length. */
    method EncodeRLP() returns (r: seq<Byte>)
      ensures |Uvarint(chainID) + Uvarint(version)| <= 2 * MAX_VARINT_LEN
      ensures r == RlpEncode(Uvarint(chainID) + Uvarint(version))
      ensures DecodeEntry(r) == Some((chainID, version))
    {
      var out := new Byte[2 * MAX_VARINT_LEN](_ => 0);
      var offset := PutUvarint(out, 0, chainID);
      var n := PutUvarint(out, offset, version);
      assert out[..offset] == Uvarint(chainID);
      offset := offset + n;
      assert out[..offset] == Uvarint(chainID) + Uvarint(version);
      r := RlpEncode(out[..offset]);
      EntryRoundTrip(chainID, version, []);
      assert Uvarint(chainID) + Uvarint(version) + [] == Uvarint(chainID) + Uvarint(version);
    }

    /** On an error the fields keep their values. */
    method DecodeRLP(s: seq<Byte>) returns (ok: bool)
      modifies this
      ensures ok <==> DecodeEntry(s).Some?
      ensures ok ==> DecodeEntry(s) == Some((chainID, version))
      ensures !ok ==> chainID == old(chainID) && version == old(version)
    {
      var b := RlpDecode(s);
      if b.None? {
        return false;
      }
      var c, next := ReadUvarint(b.value, 0);
      assert b.value[0..] == b.value;
      if c.None? {
        return false;
      }
      var v, end := ReadUvarint(b.value, next);
      if v.None? {
        return false;
      }
      NumbersFit(b.value);
      NumbersFit(b.value[next..]);
      chainID := c.value;
      version := v.value;
      return true;
    }
  }

  lemma NumbersFit(b: seq<Byte>)
    ensures ReadUvarintSpec(b).Some? ==> ReadUvarintSpec(b).value.0 < TWO_64
  {
    if ReadUvarintSpec(b).Some? {
      ReadBound(b, 10);
      NinePowers();
    }
  }

  /** Whether a discovered node's chain ID is the low 64 bits of the configured one; `entry` is its "opstack" entry, if any. */
  method FilterEnode(entry: Option<seq<Byte>>, l2ChainID: nat) returns (accept: bool)
    ensures accept <==> entry.Some? && DecodeEntry(entry.value) == Some((l2ChainID % TWO_64, 0))
  {
    if entry.None? {
      return false;
    }
    var dat := new OpStackENRData(0, 0);
    var ok := dat.DecodeRLP(entry.value);
    if !ok {
      return false;
    }
    if l2ChainID % TWO_64 != dat.chainID {
      return false;
    }
    if dat.version != 0 {
      return false;
    }
    return true;
  }

  /** A written record is accepted exactly if it has version 0 and the low 64 bits of the configured chain ID. */
  lemma WrittenRecordsAreFiltered(chainID: U64, version: U64, l2ChainID: nat)
    ensures var entry := Uvarint(chainID) + Uvarint(version);
            && |entry| < TWO_64
            && (DecodeEntry(RlpEncode(entry)) == Some((l2ChainID % TWO_64, 0))
                <==> chainID == l2ChainID % TWO_64 && version == 0)
  {
    hide DecodeEntry, RlpEncode, Uvarint;
    EntryRoundTrip(chainID, version, []);
    assert Uvarint(chainID) + Uvarint(version) + [] == Uvarint(chainID) + Uvarint(version);
  }
}
