/** Byte-level building blocks of the exporter: the byte type, big-endian
    integer encodings (with the wrap-around of the JavaScript integer
    conversions), concatenation of byte arrays, and the cursor writers that
    every section builder uses to fill a freshly allocated, zero-filled
    buffer. */
module Bytes {

  newtype byte = x: int | 0 <= x < 256

  type Bytes = seq<byte>

  /** Eight bytes, the size of an IEEE-754 double written by setFloat64. */
  type Bytes8 = s: Bytes | |s| == 8 witness [0, 0, 0, 0, 0, 0, 0, 0]

  function Pow256(n: nat): (p: nat)
    ensures p >= 1
  {
    if n == 0 then 1 else 256 * Pow256(n - 1)
  }

  /** The n-byte big-endian encoding of v modulo 256^n.  Dafny's `/` and `%`
      are Euclidean, so for a negative v this is the two's-complement
      pattern, exactly what ToUint16/ToUint32/ToInt16/ToInt32 produce. */
  function BE(v: int, n: nat): (r: Bytes)
    decreases n
    ensures |r| == n
  {
    if n == 0 then [] else BE(v / 256, n - 1) + [(v % 256) as byte]
  }

  /** The unsigned value of a big-endian byte string. */
  function DecodeBE(s: Bytes): (v: nat)
    ensures v < Pow256(|s|)
  {
    if s == [] then 0 else DecodeBE(s[..|s| - 1]) * 256 + s[|s| - 1] as int
  }

  /** Big-endian 16-bit field (setUint16 and setInt16 store the same bits). */
  function BE16(v: int): (r: Bytes)
    ensures |r| == 2
  {
    BE(v, 2)
  }

  /** Big-endian 32-bit field (setUint32, setInt32 and writeUint32 store the same bits). */
  function BE32(v: int): (r: Bytes)
    ensures |r| == 4
  {
    BE(v, 4)
  }

  /** Reading back a 16/32-bit field yields the value modulo 2^16 / 2^32. */
  function U16At(s: Bytes, i: nat): nat
    requires i + 2 <= |s|
  {
    DecodeBE(s[i..i + 2])
  }

  function U32At(s: Bytes, i: nat): nat
    requires i + 4 <= |s|
  {
    DecodeBE(s[i..i + 4])
  }

  /** Two's-complement reading of a 16-bit field. */
  function I16At(s: Bytes, i: nat): int
    requires i + 2 <= |s|
  {
    var u := U16At(s, i);
    if u < 0x8000 then u else u - 0x1_0000
  }

  /** Two's-complement reading of a 32-bit field. */
  function I32At(s: Bytes, i: nat): int
    requires i + 4 <= |s|
  {
    var u := U32At(s, i);
    if u < 0x8000_0000 then u else u - 0x1_0000_0000
  }

  /** Division with remainder is unique. */
  lemma DivModUnique(x: int, d: int, q: int, r: int)
    requires d > 0 && x == q * d + r && 0 <= r < d
    ensures x / d == q && x % d == r
  {
    var k := q - x / d;
    assert k * d == x % d - r;
  }

  lemma ModSplit(v: int, m: nat)
    requires m >= 1
    ensures (v / 256) % m * 256 + v % 256 == v % (256 * m)
  {
    var q := v / 256;
    var r := v % 256;
    var a := q / m;
    var b := q % m;
    assert q == a * m + b;
    assert v == a * (256 * m) + (b * 256 + r) by {
      assert v == q * 256 + r;
      assert q * 256 == a * (256 * m) + b * 256;
    }
    assert b * 256 + r < 256 * m by {
      assert b <= m - 1;
      assert b * 256 <= (m - 1) * 256;
    }
    DivModUnique(v, 256 * m, a, b * 256 + r);
  }

  /** Decoding inverts encoding, up to the wrap-around of the field width. */
  lemma {:induction false} DecodeEncode(v: int, n: nat)
    decreases n
    ensures DecodeBE(BE(v, n)) == v % Pow256(n)
  {
    if n > 0 {
      var s := BE(v, n);
      assert s[..n - 1] == BE(v / 256, n - 1);
      DecodeEncode(v / 256, n - 1);
      ModSplit(v, Pow256(n - 1));
    }
  }

  /** A value that fits the field is read back unchanged. */
  lemma DecodeEncodeFits(v: int, n: nat)
    requires 0 <= v < Pow256(n)
    ensures DecodeBE(BE(v, n)) == v
  {
    DecodeEncode(v, n);
  }

  /** The field of a negative value that fits reads back as that value. */
  lemma SignedRoundTrip16(v: int)
    requires -0x8000 <= v < 0x8000
    ensures I16At(BE16(v), 0) == v
  {
    DecodeEncode(v, 2);
    assert BE16(v)[0..2] == BE16(v);
    assert U16At(BE16(v), 0) == v % 0x1_0000;
    if v < 0 {
      assert v % 0x1_0000 == v + 0x1_0000;
    }
  }

  lemma SignedRoundTrip32(v: int)
    requires -0x8000_0000 <= v < 0x8000_0000
    ensures I32At(BE32(v), 0) == v
  {
    Int32Field(v);
    ToInt32InRange(v);
  }

  /** ToInt32 leaves a value already in the signed 32-bit range alone. */
  lemma ToInt32InRange(v: int)
    requires -0x8000_0000 <= v < 0x8000_0000
    ensures ToInt32(v) == v
  {
    if v < 0 {
      assert v % 0x1_0000_0000 == v + 0x1_0000_0000;
    }
  }

  /** ToInt32: the signed 32-bit integer with the same low 32 bits as v. */
  function ToInt32(v: int): (r: int)
    ensures -0x8000_0000 <= r < 0x8000_0000
    ensures r % 0x1_0000_0000 == v % 0x1_0000_0000
  {
    var u := v % 0x1_0000_0000;
    if u < 0x8000_0000 then u else u - 0x1_0000_0000
  }

  /** setInt32 of any integer reads back as its ToInt32 wrap-around. */
  lemma Int32Field(v: int)
    ensures I32At(BE32(v), 0) == ToInt32(v)
  {
    DecodeEncode(v, 4);
    assert BE32(v)[0..4] == BE32(v);
  }

  /** A setInt32 field anywhere in a buffer reads back as ToInt32. */
  lemma Int32FieldAt(s: Bytes, k: nat, v: int)
    requires k + 4 <= |s| && s[k..k + 4] == BE32(v)
    ensures I32At(s, k) == ToInt32(v)
  {
    Int32Field(v);
    assert BE32(v)[0..4] == BE32(v);
  }

  /** A setUint16 field anywhere in a buffer reads back modulo 2^16. */
  lemma Uint16FieldAt(s: Bytes, k: nat, v: int)
    requires k + 2 <= |s| && s[k..k + 2] == BE16(v)
    ensures U16At(s, k) == v % 0x1_0000
  {
    DecodeEncode(v, 2);
  }

  /** A setUint32 field anywhere in a buffer reads back modulo 2^32. */
  lemma Uint32FieldAt(s: Bytes, k: nat, v: int)
    requires k + 4 <= |s| && s[k..k + 4] == BE32(v)
    ensures U32At(s, k) == v % 0x1_0000_0000
  {
    DecodeEncode(v, 4);
  }

  /** A setInt16 field of a value that fits reads back as that value. */
  lemma Int16FieldAt(s: Bytes, k: nat, v: int)
    requires -0x8000 <= v < 0x8000
    requires k + 2 <= |s| && s[k..k + 2] == BE16(v)
    ensures I16At(s, k) == v
  {
    SignedRoundTrip16(v);
    assert BE16(v)[0..2] == BE16(v);
  }

  /** The four bytes of a 32-bit field are the shifted-and-masked bytes of
      v modulo 2^32, the operand that JavaScript's `>>>` works on. */
  lemma Uint32Bytes(v: int)
    ensures var u := v % 0x1_0000_0000;
      BE32(v) == [((u / 0x100_0000) % 256) as byte, ((u / 0x1_0000) % 256) as byte,
                  ((u / 0x100) % 256) as byte, (u % 256) as byte]
  {
    BE32Unfold(v);
    LowBytesMod32(v);
    HighBytesMod32(v);
  }

  /** Reducing modulo 2^32 leaves the two high bytes unchanged. */
  lemma HighBytesMod32(v: int)
    ensures ((v % 0x1_0000_0000) / 0x100_0000) % 256 == (v / 0x100_0000) % 256
    ensures ((v % 0x1_0000_0000) / 0x1_0000) % 256 == (v / 0x1_0000) % 256
  {
    TopByteMod32(v);
    ThirdByteMod32(v);
  }

  lemma TopByteMod32(v: int)
    ensures ((v % 0x1_0000_0000) / 0x100_0000) % 256 == (v / 0x100_0000) % 256
  {
    var k, u := v / 0x1_0000_0000, v % 0x1_0000_0000;
    assert v == k * 0x1_0000_0000 + u;
    DivShift24(k, u);
    ModShift256(k, u / 0x100_0000);
  }

  lemma ThirdByteMod32(v: int)
    ensures ((v % 0x1_0000_0000) / 0x1_0000) % 256 == (v / 0x1_0000) % 256
  {
    var k, u := v / 0x1_0000_0000, v % 0x1_0000_0000;
    assert v == k * 0x1_0000_0000 + u;
    DivShift16(k, u);
    ModShift256(k * 256, u / 0x1_0000);
  }

  lemma DivShift24(k: int, u: int)
    ensures (k * 0x1_0000_0000 + u) / 0x100_0000 == k * 256 + u / 0x100_0000
  {
    var q, r := u / 0x100_0000, u % 0x100_0000;
    assert k * 0x1_0000_0000 + u == (k * 256 + q) * 0x100_0000 + r;
  }

  lemma DivShift16(k: int, u: int)
    ensures (k * 0x1_0000_0000 + u) / 0x1_0000 == k * 0x1_0000 + u / 0x1_0000
  {
    var q, r := u / 0x1_0000, u % 0x1_0000;
    assert k * 0x1_0000_0000 + u == (k * 0x1_0000 + q) * 0x1_0000 + r;
  }

  lemma ModShift256(j: int, x: int)
    ensures (j * 256 + x) % 256 == x % 256
  {
    var q, r := x / 256, x % 256;
    assert j * 256 + x == (j + q) * 256 + r;
  }

  lemma BE32Unfold(v: int)
    ensures BE32(v) == [((v / 0x100_0000) % 256) as byte, ((v / 0x1_0000) % 256) as byte,
                        ((v / 0x100) % 256) as byte, (v % 256) as byte]
  {
    assert BE(v, 4) == BE(v / 256 / 256 / 256, 1) + [((v / 256 / 256) % 256) as byte]
      + [((v / 256) % 256) as byte] + [(v % 256) as byte];
    assert v / 256 / 256 == v / 0x1_0000;
    assert v / 0x1_0000 / 256 == v / 0x100_0000;
  }

  /** Reducing modulo 2^32 leaves the two low bytes unchanged. */
  lemma LowBytesMod32(v: int)
    ensures ((v % 0x1_0000_0000) / 256) % 256 == (v / 256) % 256
    ensures (v % 0x1_0000_0000) % 256 == v % 256
  {
    var k := v / 0x1_0000_0000;
    var u := v % 0x1_0000_0000;
    assert v == k * 0x1_0000_0000 + u;
    assert u / 0x100 == v / 0x100 - k * 0x100_0000;
  }

  /** The two bytes of a 16-bit field, read from any integer congruent to v
      modulo 2^16 and reduced modulo 2^32 first. */
  lemma Int16Bytes(value: int, v: int)
    requires v == value || v == value + 0x1_0000
    ensures var u := v % 0x1_0000_0000;
      BE16(value) == [((u / 0x100) % 256) as byte, (u % 256) as byte]
  {
    LowBytesMod32(v);
    BE16Bytes(value);
    SameLowBytes(value, v);
  }

  lemma BE16Bytes(value: int)
    ensures BE16(value) == [((value / 256) % 256) as byte, (value % 256) as byte]
  {
    assert BE(value, 2) == BE(value / 256, 1) + [(value % 256) as byte];
    assert BE(value / 256, 1) == BE(value / 256 / 256, 0) + [((value / 256) % 256) as byte];
  }

  lemma SameLowBytes(value: int, v: int)
    requires v == value || v == value + 0x1_0000
    ensures (v / 256) % 256 == (value / 256) % 256 && v % 256 == value % 256
  {
    if v != value {
      assert v / 256 == value / 256 + 256;
    }
  }

  /** A slice taken after a prefix is a slice of what follows it. */
  lemma SliceAfter(a: Bytes, b: Bytes, k: nat, len: nat)
    requires k + len <= |b|
    ensures (a + b)[|a| + k..|a| + k + len] == b[k..k + len]
  {
  }

  // ---------------------------------------------------------------------
  // Concatenation (concatUint8Arrays)
  // ---------------------------------------------------------------------

  /** All arrays laid end to end. */
  function Flatten(parts: seq<Bytes>): (r: Bytes)
  {
    if parts == [] then [] else Flatten(parts[..|parts| - 1]) + parts[|parts| - 1]
  }

  function TotalLength(parts: seq<Bytes>): nat
  {
    if parts == [] then 0 else TotalLength(parts[..|parts| - 1]) + |parts[|parts| - 1]|
  }

  /** The concatenation is as long as the precomputed total, and part k starts
      at the sum of the lengths before it. */
  lemma {:induction false} FlattenLayout(parts: seq<Bytes>, k: nat)
    requires k < |parts|
    ensures |Flatten(parts)| == TotalLength(parts)
    ensures TotalLength(parts[..k]) + |parts[k]| <= |Flatten(parts)|
    ensures Flatten(parts)[TotalLength(parts[..k])..TotalLength(parts[..k]) + |parts[k]|] == parts[k]
  {
    var n := |parts|;
    FlattenLength(parts);
    FlattenLength(parts[..n - 1]);
    if k == n - 1 {
      assert parts[..k] == parts[..n - 1];
    } else {
      FlattenLayout(parts[..n - 1], k);
      assert parts[..n - 1][..k] == parts[..k];
      assert parts[..n - 1][k] == parts[k];
      var pre := Flatten(parts[..n - 1]);
      assert Flatten(parts) == pre + parts[n - 1];
      var lo := TotalLength(parts[..k]);
      assert Flatten(parts)[lo..lo + |parts[k]|] == pre[lo..lo + |parts[k]|];
    }
  }

  lemma {:induction false} FlattenLength(parts: seq<Bytes>)
    ensures |Flatten(parts)| == TotalLength(parts)
  {
    if parts != [] {
      FlattenLength(parts[..|parts| - 1]);
    }
  }

  /** Flattening distributes over joining two lists of parts. */
  lemma {:induction false} FlattenAppend(a: seq<Bytes>, b: seq<Bytes>)
    ensures Flatten(a + b) == Flatten(a) + Flatten(b)
  {
    if b == [] {
      assert a + b == a;
    } else {
      var n := |b|;
      var init := b[..n - 1];
      assert (a + b)[..|a + b| - 1] == a + init;
      assert (a + b)[|a + b| - 1] == b[n - 1];
      assert Flatten(a + b) == Flatten(a + init) + b[n - 1];
      FlattenAppend(a, init);
      assert Flatten(b) == Flatten(init) + b[n - 1];
    }
  }

  lemma FlattenOne(a: Bytes)
    ensures Flatten([a]) == a
  {
    assert [a][..0] == [];
  }

  /** concatUint8Arrays: sum the lengths, allocate, copy each array at a
      running offset. */
  method ConcatUint8Arrays(arrays: seq<Bytes>) returns (r: Bytes)
    ensures r == Flatten(arrays)
  {
    if |arrays| == 0 {
      return [];
    }
    var total := 0;
    var i := 0;
    while i < |arrays|
      invariant 0 <= i <= |arrays|
      invariant total == TotalLength(arrays[..i])
    {
      assert arrays[..i + 1][..i] == arrays[..i];
      total := total + |arrays[i]|;
      i := i + 1;
    }
    assert arrays[..|arrays|] == arrays;
    FlattenLength(arrays);
    var result := new byte[total](_ => 0);
    var offset := 0;
    i := 0;
    while i < |arrays|
      invariant 0 <= i <= |arrays|
      invariant offset == |Flatten(arrays[..i])| <= total
      invariant result[..offset] == Flatten(arrays[..i])
      modifies result
    {
      assert arrays[..i + 1][..i] == arrays[..i];
      FlattenPrefixGrows(arrays, i);
      WriteBytes(result, offset, arrays[i]);
      offset := offset + |arrays[i]|;
      i := i + 1;
    }
    assert result[..] == result[..offset];
    r := result[..];
  }

  lemma FlattenPrefixGrows(parts: seq<Bytes>, i: nat)
    requires i < |parts|
    ensures Flatten(parts[..i + 1]) == Flatten(parts[..i]) + parts[i]
    ensures |Flatten(parts[..i + 1])| <= |Flatten(parts)|
  {
    assert parts[..i + 1][..i] == parts[..i];
    assert parts == parts[..i + 1] + parts[i + 1..];
    FlattenAppend(parts[..i + 1], parts[i + 1..]);
  }

  // ---------------------------------------------------------------------
  // Cursor writers over a zero-filled Uint8Array
  // ---------------------------------------------------------------------

  /** Uint8Array.prototype.set(data, offset). */
  method WriteBytes(buf: array<byte>, offset: nat, data: Bytes)
    requires offset + |data| <= buf.Length
    modifies buf
    ensures buf[..offset + |data|] == old(buf[..offset]) + data
    ensures buf[offset + |data|..] == old(buf[offset + |data|..])
  {
    var i := 0;
    while i < |data|
      invariant 0 <= i <= |data|
      invariant buf[..offset] == old(buf[..offset])
      invariant buf[offset..offset + i] == data[..i]
      invariant buf[offset + |data|..] == old(buf[offset + |data|..])
    {
      buf[offset + i] := data[i];
      i := i + 1;
    }
    assert buf[..offset + |data|] == buf[..offset] + buf[offset..offset + |data|];
  }

  /** writeUint32: four shifted-and-masked bytes, most significant first. */
  method WriteUint32(buf: array<byte>, offset: nat, value: int)
    requires offset + 4 <= buf.Length
    modifies buf
    ensures buf[..offset + 4] == old(buf[..offset]) + BE32(value)
    ensures buf[offset + 4..] == old(buf[offset + 4..])
  {
    var u := value % 0x1_0000_0000;  // ToUint32, the operand of >>>
    buf[offset] := ((u / 0x100_0000) % 256) as byte;
    buf[offset + 1] := ((u / 0x1_0000) % 256) as byte;
    buf[offset + 2] := ((u / 0x100) % 256) as byte;
    buf[offset + 3] := (u % 256) as byte;
    Uint32Bytes(value);
    assert buf[offset..offset + 4] == BE32(value);
    assert buf[..offset + 4] == buf[..offset] + buf[offset..offset + 4];
  }

  /** writeInt16: a negative value is first mapped to 0xffff + value + 1. */
  method WriteInt16(buf: array<byte>, offset: nat, value: int)
    requires offset + 2 <= buf.Length
    modifies buf
    ensures buf[..offset + 2] == old(buf[..offset]) + BE16(value)
    ensures buf[offset + 2..] == old(buf[offset + 2..])
  {
    var v := if value < 0 then 0xffff + value + 1 else value;
    var u := v % 0x1_0000_0000;
    buf[offset] := ((u / 0x100) % 256) as byte;
    buf[offset + 1] := (u % 256) as byte;
    Int16Bytes(value, v);
    assert buf[offset..offset + 2] == BE16(value);
    assert buf[..offset + 2] == buf[..offset] + buf[offset..offset + 2];
  }

  /** DataView setters: write the big-endian field of the given width. */
  method WriteBE(buf: array<byte>, offset: nat, value: int, width: nat)
    requires offset + width <= buf.Length
    modifies buf
    ensures buf[..offset + width] == old(buf[..offset]) + BE(value, width)
    ensures buf[offset + width..] == old(buf[offset + width..])
  {
    WriteBytes(buf, offset, BE(value, width));
  }
}
