/** Text encodings used by the exporter.  A JavaScript string is modelled as
    a Dafny `string`, a sequence of Unicode scalar values; its UTF-16 form
    (what `.length` and `charCodeAt` see) and its UTF-8 form (what
    TextEncoder.encode returns) are computed here. */
module Text {
  import opened Bytes

  newtype CodeUnit = x: int | 0 <= x < 0x1_0000

  // ---------------------------------------------------------------------
  // UTF-16 (JavaScript string semantics)
  // ---------------------------------------------------------------------

  function Utf16Char(c: char): (r: seq<CodeUnit>)
    ensures |r| == (if c as int < 0x1_0000 then 1 else 2)
  {
    var n := c as int;
    if n < 0x1_0000 then [n as CodeUnit]
    else [(0xD800 + (n - 0x1_0000) / 0x400) as CodeUnit, (0xDC00 + (n - 0x1_0000) % 0x400) as CodeUnit]
  }

  /** The UTF-16 code units of s: its JavaScript `.length` is |Utf16(s)|. */
  function Utf16(s: string): (r: seq<CodeUnit>)
    ensures |r| >= |s|
  {
    if s == [] then [] else Utf16Char(s[0]) + Utf16(s[1..])
  }

  lemma {:induction false} Utf16Append(a: string, b: string)
    ensures Utf16(a + b) == Utf16(a) + Utf16(b)
  {
    if a == [] {
      assert a + b == b;
    } else {
      assert (a + b)[0] == a[0];
      assert (a + b)[1..] == a[1..] + b;
      Utf16Append(a[1..], b);
    }
  }

  predicate IsBmp(s: string) {
    forall i :: 0 <= i < |s| ==> s[i] as int < 0x1_0000
  }

  /** Text in the Basic Multilingual Plane has one code unit per character. */
  lemma {:induction false} Utf16Bmp(s: string)
    requires IsBmp(s)
    ensures |Utf16(s)| == |s|
    ensures forall i :: 0 <= i < |s| ==> Utf16(s)[i] as int == s[i] as int
  {
    if s != [] {
      Utf16Bmp(s[1..]);
      forall i | 0 <= i < |s| ensures Utf16(s)[i] as int == s[i] as int {
        if i > 0 {
          assert Utf16(s)[i] == Utf16(s[1..])[i - 1];
        }
      }
    }
  }

  // ---------------------------------------------------------------------
  // UTF-8 (TextEncoder.encode)
  // ---------------------------------------------------------------------

  function Utf8Char(c: char): (r: Bytes)
    ensures 1 <= |r| <= 4
    ensures |r| == 1 <==> c as int < 0x80
  {
    var n := c as int;
    if n < 0x80 then [n as byte]
    else if n < 0x800 then [(0xC0 + n / 0x40) as byte, (0x80 + n % 0x40) as byte]
    else if n < 0x1_0000 then
      [(0xE0 + n / 0x1000) as byte, (0x80 + (n / 0x40) % 0x40) as byte, (0x80 + n % 0x40) as byte]
    else
      [(0xF0 + n / 0x4_0000) as byte, (0x80 + (n / 0x1000) % 0x40) as byte,
       (0x80 + (n / 0x40) % 0x40) as byte, (0x80 + n % 0x40) as byte]
  }

  /** The UTF-8 bytes of s. */
  function Utf8(s: string): (r: Bytes)
    ensures |s| <= |r| <= 4 * |s|
  {
    if s == [] then [] else Utf8Char(s[0]) + Utf8(s[1..])
  }

  lemma {:induction false} Utf8Append(a: string, b: string)
    ensures Utf8(a + b) == Utf8(a) + Utf8(b)
  {
    if a == [] {
      assert a + b == b;
    } else {
      assert (a + b)[0] == a[0];
      assert (a + b)[1..] == a[1..] + b;
      Utf8Append(a[1..], b);
    }
  }

  predicate IsAscii(s: string) {
    forall i :: 0 <= i < |s| ==> s[i] as int < 0x80
  }

  /** ASCII text is its own UTF-8 encoding, one byte per character. */
  lemma {:induction false} Utf8Ascii(s: string)
    requires IsAscii(s)
    ensures |Utf8(s)| == |s|
    ensures forall i :: 0 <= i < |s| ==> Utf8(s)[i] as int == s[i] as int
  {
    if s != [] {
      Utf8Ascii(s[1..]);
      forall i | 0 <= i < |s| ensures Utf8(s)[i] as int == s[i] as int {
        if i > 0 {
          assert Utf8(s)[i] == Utf8(s[1..])[i - 1];
        }
      }
    }
  }

  /** Only ASCII text has as many UTF-8 bytes as characters. */
  lemma {:induction false} Utf8LengthAscii(s: string)
    requires |Utf8(s)| == |s|
    ensures IsAscii(s)
  {
    if s != [] {
      assert |Utf8(s[1..])| >= |s| - 1;
      Utf8LengthAscii(s[1..]);
      forall i | 0 <= i < |s| ensures s[i] as int < 0x80 {
        if i > 0 {
          assert s[i] == s[1..][i - 1];
        }
      }
    }
  }

  // ---------------------------------------------------------------------
  // Decimal rendering of a non-negative integer (String(n))
  // ---------------------------------------------------------------------

  function DigitChar(d: nat): char
    requires d < 10
  {
    ['0', '1', '2', '3', '4', '5', '6', '7', '8', '9'][d]
  }

  function NatToString(n: nat): (r: string)
    ensures |r| >= 1
    ensures forall i :: 0 <= i < |r| ==> '0' <= r[i] <= '9'
  {
    if n < 10 then [DigitChar(n)] else NatToString(n / 10) + [DigitChar(n % 10)]
  }

  function DigitValue(c: char): nat
  {
    if '0' <= c <= '9' then c as int - '0' as int else 0
  }

  function ParseNat(s: string): nat
  {
    if s == [] then 0 else ParseNat(s[..|s| - 1]) * 10 + DigitValue(s[|s| - 1])
  }

  /** Reading the decimal digits back gives the number. */
  lemma {:induction false} ParseNatToString(n: nat)
    ensures ParseNat(NatToString(n)) == n
  {
    if n < 10 {
      DigitRoundTrip(n);
    } else {
      var s := NatToString(n);
      assert s[..|s| - 1] == NatToString(n / 10);
      assert s[|s| - 1] == DigitChar(n % 10);
      ParseNatToString(n / 10);
      DigitRoundTrip(n % 10);
    }
  }

  lemma DigitRoundTrip(d: nat)
    requires d < 10
    ensures DigitValue(DigitChar(d)) == d
  {
  }

  // ---------------------------------------------------------------------
  // encodeUnicodeStringWithLength
  // ---------------------------------------------------------------------

  /** Each code unit as a big-endian 16-bit field. */
  function UnitsBE(u: seq<CodeUnit>): (r: Bytes)
    ensures |r| == 2 * |u|
  {
    if u == [] then [] else UnitsBE(u[..|u| - 1]) + BE16(u[|u| - 1] as int)
  }

  /** Layout of a Unicode string: u32 code-unit count, then the units
      big-endian, no terminator. */
  function UnicodeString(s: string): (r: Bytes)
    ensures |r| == 4 + 2 * |Utf16(s)|
  {
    BE32(|Utf16(s)|) + UnitsBE(Utf16(s))
  }

  lemma {:induction false} UnitsBEAt(u: seq<CodeUnit>, i: nat)
    requires i < |u|
    ensures UnitsBE(u)[2 * i..2 * i + 2] == BE16(u[i] as int)
  {
    var n := |u|;
    if i < n - 1 {
      UnitsBEAt(u[..n - 1], i);
      assert u[..n - 1][i] == u[i];
      assert UnitsBE(u)[2 * i..2 * i + 2] == UnitsBE(u[..n - 1])[2 * i..2 * i + 2];
    }
  }

  lemma UnitsBEStep(u: seq<CodeUnit>, i: nat)
    requires i < |u|
    ensures UnitsBE(u[..i + 1]) == UnitsBE(u[..i]) + BE16(u[i] as int)
  {
    assert u[..i + 1][..i] == u[..i];
  }

  /** The count field holds the number of UTF-16 units and unit i sits at
      byte 4 + 2i. */
  lemma UnicodeStringLayout(s: string, i: nat)
    requires |Utf16(s)| < 0x1_0000_0000
    requires i < |Utf16(s)|
    ensures U32At(UnicodeString(s), 0) == |Utf16(s)|
    ensures U16At(UnicodeString(s), 4 + 2 * i) == Utf16(s)[i] as int
  {
    UnitsLayout(Utf16(s), i);
  }

  lemma UnitsLayout(u: seq<CodeUnit>, i: nat)
    requires |u| < 0x1_0000_0000 && i < |u|
    ensures U32At(BE32(|u|) + UnitsBE(u), 0) == |u|
    ensures U16At(BE32(|u|) + UnitsBE(u), 4 + 2 * i) == u[i] as int
  {
    var r := BE32(|u|) + UnitsBE(u);
    assert r[0..4] == BE32(|u|);
    DecodeEncodeFits(|u|, 4);
    UnitsBEAt(u, i);
    SliceAfter(BE32(|u|), UnitsBE(u), 2 * i, 2);
    DecodeEncodeFits(u[i] as int, 2);
  }

  /** Reads a u32 count n and n big-endian code units. */
  function DecodeUnits(b: Bytes, n: nat): (r: seq<CodeUnit>)
    requires |b| >= 2 * n
    ensures |r| == n
  {
    if n == 0 then [] else DecodeUnits(b, n - 1) + [DecodeBE(b[2 * (n - 1)..2 * n]) as CodeUnit]
  }

  function DecodeUnicodeString(b: Bytes): Option<(seq<CodeUnit>, Bytes)>
  {
    if |b| < 4 then None
    else
      var n := U32At(b, 0);
      if |b| < 4 + 2 * n then None
      else Some((DecodeUnits(b[4..], n), b[4 + 2 * n..]))
  }

  datatype Option<T> = None | Some(value: T)

  lemma {:induction false} DecodeUnitsBE(u: seq<CodeUnit>, rest: Bytes)
    ensures DecodeUnits(UnitsBE(u) + rest, |u|) == u
  {
    var n := |u|;
    if n > 0 {
      var init := UnitsBE(u[..n - 1]);
      var x := BE16(u[n - 1] as int);
      var b := init + (x + rest);
      assert UnitsBE(u) + rest == b;
      DecodeUnitsBE(u[..n - 1], x + rest);
      MiddleSlice(init, x, rest);
      DecodeEncodeFits(u[n - 1] as int, 2);
      DecodeUnitsLast(b, n, u[..n - 1], u[n - 1]);
      assert u == u[..n - 1] + [u[n - 1]];
    }
  }

  lemma DecodeUnitsLast(b: Bytes, n: nat, init: seq<CodeUnit>, last: CodeUnit)
    requires n >= 1 && |b| >= 2 * n
    requires DecodeUnits(b, n - 1) == init && DecodeBE(b[2 * (n - 1)..2 * n]) == last as int
    ensures DecodeUnits(b, n) == init + [last]
  {
  }

  lemma MiddleSlice(a: Bytes, x: Bytes, rest: Bytes)
    ensures (a + (x + rest))[|a|..|a| + |x|] == x
  {
  }

  /** Decoding a Unicode string field returns its code units and the bytes
      that follow: the field is self-delimiting. */
  lemma UnicodeStringRoundTrip(s: string, rest: Bytes)
    requires |Utf16(s)| < 0x1_0000_0000
    ensures DecodeUnicodeString(UnicodeString(s) + rest) == Some((Utf16(s), rest))
  {
    var u := Utf16(s);
    var n := |u|;
    var tail := UnitsBE(u) + rest;
    assert UnicodeString(s) + rest == BE32(n) + tail;
    CountField(n, tail);
    DecodeUnitsBE(u, rest);
    assert tail[2 * n..] == rest;
    DecodeUnicodeStringOf(BE32(n) + tail, n, tail);
  }

  lemma DecodeUnicodeStringOf(b: Bytes, n: nat, tail: Bytes)
    requires |b| >= 4 && U32At(b, 0) == n && b[4..] == tail && |tail| >= 2 * n
    ensures DecodeUnicodeString(b) == Some((DecodeUnits(tail, n), tail[2 * n..]))
  {
    assert b[4 + 2 * n..] == tail[2 * n..];
  }

  /** A u32 field in front of any bytes reads back as its value. */
  lemma CountField(n: nat, tail: Bytes)
    requires n < 0x1_0000_0000
    ensures U32At(BE32(n) + tail, 0) == n && (BE32(n) + tail)[4..] == tail
  {
    assert (BE32(n) + tail)[0..4] == BE32(n);
    DecodeEncodeFits(n, 4);
  }

  /** encodeUnicodeStringWithLength: allocate 4 + 2n bytes, write the count,
      then the code units. */
  method EncodeUnicodeStringWithLength(value: string) returns (r: Bytes)
    ensures r == UnicodeString(value)
  {
    var text := Utf16(value);
    var n := |text|;
    var buffer := new byte[4 + n * 2](_ => 0);
    WriteBE(buffer, 0, n, 4);
    WriteUnits(buffer, 4, text);
    assert buffer[..] == buffer[..4 + 2 * n];
    r := buffer[..];
  }

  /** The loop of encodeUnicodeStringWithLength: one 16-bit unit per
      iteration, unit i at offset + 2i. */
  method WriteUnits(buffer: array<byte>, offset: nat, text: seq<CodeUnit>)
    requires offset + 2 * |text| <= buffer.Length
    modifies buffer
    ensures buffer[..offset + 2 * |text|] == old(buffer[..offset]) + UnitsBE(text)
  {
    ghost var prefix := buffer[..offset];
    assert text[..0] == [];
    var i := 0;
    while i < |text|
      invariant 0 <= i <= |text|
      invariant buffer[..offset + 2 * i] == prefix + UnitsBE(text[..i])
    {
      var unit := BE16(text[i] as int);
      UnitsBEStep(text, i);
      ghost var before := buffer[..offset + 2 * i];
      WriteBytes(buffer, offset + 2 * i, unit);
      assert buffer[..offset + 2 * i + 2] == before + unit;
      assert prefix + UnitsBE(text[..i + 1]) == before + unit;
      i := i + 1;
    }
    assert text[..i] == text;
  }

  // ---------------------------------------------------------------------
  // stringToBytes
  // ---------------------------------------------------------------------

  /** The first `length` bytes of the UTF-8 encoding, zero-filled past its
      end. */
  function FixedField(text: string, length: nat): (r: Bytes)
    ensures |r| == length
  {
    var e := Utf8(text);
    if length <= |e| then e[..length] else e + seq(length - |e|, _ => 0)
  }

  /** Byte i of the field is byte i of the encoding, or zero past its end:
      the encoding is cut or zero-filled, never shifted. */
  lemma FixedFieldAt(text: string, length: nat)
    ensures forall i :: 0 <= i < length ==>
      FixedField(text, length)[i] == if i < |Utf8(text)| then Utf8(text)[i] else 0
  {
  }

  /** A four-character ASCII tag fills its field exactly. */
  lemma FixedFieldAscii(tag: string)
    requires |tag| == 4 && IsAscii(tag)
    ensures FixedField(tag, 4) == Utf8(tag)
    ensures forall i :: 0 <= i < 4 ==> FixedField(tag, 4)[i] as int == tag[i] as int
  {
    Utf8Ascii(tag);
    FixedFieldAt(tag, 4);
  }

  method StringToBytes(text: string, length: nat) returns (r: Bytes)
    ensures r == FixedField(text, length)
  {
    var encoded := Utf8(text);
    var buffer := new byte[length](_ => 0);
    var i := 0;
    while i < length
      invariant 0 <= i <= length
      invariant forall j :: 0 <= j < i ==> buffer[j] == if j < |encoded| then encoded[j] else 0
    {
      buffer[i] := if i < |encoded| then encoded[i] else 0;
      i := i + 1;
    }
    FixedFieldAt(text, length);
    r := buffer[..];
  }

  // ---------------------------------------------------------------------
  // pascalString
  // ---------------------------------------------------------------------

  function Min(a: int, b: int): int { if a < b then a else b }

  /** The legacy layer name: one length byte (at most 255), that many leading
      UTF-8 bytes, zero-filled to the next multiple of 4. */
  function PascalBytes(name: string): (r: Bytes)
  {
    var e := Utf8(name);
    var length := Min(255, |e|);
    var padded := length + 1 + (4 - (length + 1) % 4) % 4;
    [length as byte] + e[..length] + seq(padded - length - 1, _ => 0)
  }

  /** pascalString's promises: the length byte is min(255, encoded length),
      the name bytes follow, the total is the least multiple of 4 that holds
      them, and the padding is zero. */
  lemma PascalLayout(name: string)
    ensures var e := Utf8(name); var p := PascalBytes(name); var length := Min(255, |e|);
      && p[0] as int == length
      && |p| % 4 == 0
      && length + 1 <= |p| < length + 5
      && p[1..length + 1] == e[..length]
      && (forall i :: length + 1 <= i < |p| ==> p[i] == 0)
  {
    var e := Utf8(name);
    PaddedShape(e, Min(255, |e|));
  }

  /** The same layout, stated on the encoded bytes alone. */
  lemma PaddedShape(e: Bytes, length: nat)
    requires length <= |e| && length < 256
    ensures var padded := length + 1 + (4 - (length + 1) % 4) % 4;
      var p: Bytes := [length as byte] + e[..length] + seq(padded - length - 1, _ => 0);
      && p[0] as int == length
      && |p| % 4 == 0
      && length + 1 <= |p| < length + 5
      && p[1..length + 1] == e[..length]
      && (forall i :: length + 1 <= i < |p| ==> p[i] == 0)
  {
    var padded := length + 1 + (4 - (length + 1) % 4) % 4;
    var zeros: Bytes := seq(padded - length - 1, _ => 0);
    var p: Bytes := [length as byte] + e[..length] + zeros;
    assert p[1..length + 1] == e[..length];
    assert p[length + 1..] == zeros;
  }

  /** The length byte never exceeds 255, so a long name is cut, possibly in
      the middle of a multi-byte character. */
  lemma PascalTruncates(name: string)
    requires |Utf8(name)| > 255
    ensures PascalBytes(name)[0] == 255 && |PascalBytes(name)| == 256
  {
  }

  /** Reads a Pascal string padded to a multiple of 4: the name bytes and
      what follows the padding. */
  function ReadPascal(b: Bytes): Option<(Bytes, Bytes)>
  {
    if |b| == 0 then None
    else
      var length := b[0] as int;
      var padded := length + 1 + (4 - (length + 1) % 4) % 4;
      if |b| < padded then None else Some((b[1..length + 1], b[padded..]))
  }

  lemma PascalRoundTrip(name: string, rest: Bytes)
    ensures ReadPascal(PascalBytes(name) + rest) == Some((Utf8(name)[..Min(255, |Utf8(name)|)], rest))
  {
    var p := PascalBytes(name);
    assert (p + rest)[1..p[0] as int + 1] == p[1..p[0] as int + 1];
    assert (p + rest)[|p|..] == rest;
  }

  method PascalString(name: string) returns (r: Bytes)
    ensures r == PascalBytes(name)
  {
    var encoded := Utf8(name);
    var length := Min(255, |encoded|);
    var paddedLength := length + 1 + (4 - (length + 1) % 4) % 4;
    var buffer := new byte[paddedLength](_ => 0);
    buffer[0] := length as byte;
    WriteBytes(buffer, 1, encoded[..length]);
    assert buffer[length + 1..] == seq(paddedLength - length - 1, _ => 0);
    assert buffer[..] == buffer[..length + 1] + buffer[length + 1..];
    r := buffer[..];
  }

  // ---------------------------------------------------------------------
  // CR normalisation: text.replace(/\r?\n/g, '\r')
  // ---------------------------------------------------------------------

  function NormalizeToCr(s: string): (r: string)
    ensures |r| <= |s|
  {
    if s == [] then []
    else if |s| >= 2 && s[0] == '\r' && s[1] == '\n' then ['\r'] + NormalizeToCr(s[2..])
    else if s[0] == '\n' then ['\r'] + NormalizeToCr(s[1..])
    else [s[0]] + NormalizeToCr(s[1..])
  }

  predicate NoChar(s: string, c: char) {
    forall i :: 0 <= i < |s| ==> s[i] != c
  }

  /** After normalisation no line feed is left, and text without line feeds
      is unchanged. */
  lemma {:induction false} NormalizeToCrProps(s: string)
    ensures NoChar(NormalizeToCr(s), '\n')
    ensures NoChar(s, '\n') ==> NormalizeToCr(s) == s
  {
    if s != [] {
      if |s| >= 2 && s[0] == '\r' && s[1] == '\n' {
        NormalizeToCrProps(s[2..]);
      } else {
        NormalizeToCrProps(s[1..]);
        if NoChar(s, '\n') {
          assert NoChar(s[1..], '\n');
        }
      }
    }
  }

  // ---------------------------------------------------------------------
  // escapePsString
  // ---------------------------------------------------------------------

  /** String.prototype.replace with a global single-character pattern. */
  function ReplaceAll(s: string, c: char, rep: string): string
  {
    if s == [] then [] else (if s[0] == c then rep else [s[0]]) + ReplaceAll(s[1..], c, rep)
  }

  lemma {:induction false} ReplaceAllAppend(a: string, b: string, c: char, rep: string)
    ensures ReplaceAll(a + b, c, rep) == ReplaceAll(a, c, rep) + ReplaceAll(b, c, rep)
  {
    if a == [] {
      assert a + b == b;
    } else {
      assert (a + b)[0] == a[0];
      assert (a + b)[1..] == a[1..] + b;
      ReplaceAllAppend(a[1..], b, c, rep);
    }
  }

  /** The five replacements in the order the source applies them. */
  function EscapePsString(value: string): string
  {
    var a := ReplaceAll(value, '\\', "\\\\");
    var b := ReplaceAll(a, '(', "\\(");
    var c := ReplaceAll(b, ')', "\\)");
    var d := ReplaceAll(c, '\r', "\\r");
    ReplaceAll(d, '\n', "\\r")
  }

  /** The escape of one character. */
  function EscapeChar(c: char): string
  {
    if c == '\\' then "\\\\"
    else if c == '(' then "\\("
    else if c == ')' then "\\)"
    else if c == '\r' || c == '\n' then "\\r"
    else [c]
  }

  function EscapeEach(s: string): string
  {
    if s == [] then [] else EscapeChar(s[0]) + EscapeEach(s[1..])
  }

  /** Applying the five replacements one after the other escapes each
      character independently: no replacement rewrites what an earlier one
      inserted. */
  lemma {:induction false} EscapePsStringCharwise(s: string)
    ensures EscapePsString(s) == EscapeEach(s)
  {
    if s != [] {
      var h := [s[0]];
      assert s == h + s[1..];
      ReplaceAllAppend(h, s[1..], '\\', "\\\\");
      var a1, a2 := ReplaceAll(h, '\\', "\\\\"), ReplaceAll(s[1..], '\\', "\\\\");
      ReplaceAllAppend(a1, a2, '(', "\\(");
      var b1, b2 := ReplaceAll(a1, '(', "\\("), ReplaceAll(a2, '(', "\\(");
      ReplaceAllAppend(b1, b2, ')', "\\)");
      var c1, c2 := ReplaceAll(b1, ')', "\\)"), ReplaceAll(b2, ')', "\\)");
      ReplaceAllAppend(c1, c2, '\r', "\\r");
      var d1, d2 := ReplaceAll(c1, '\r', "\\r"), ReplaceAll(c2, '\r', "\\r");
      ReplaceAllAppend(d1, d2, '\n', "\\r");
      EscapeOne(s[0]);
      EscapePsStringCharwise(s[1..]);
    }
  }

  lemma EscapeOne(c: char)
    ensures EscapePsString([c]) == EscapeChar(c)
  {
    ReplaceAllOne(c, '\\', "\\\\");
    if c == '\\' {
      EscapeRest("\\\\", 0);
    } else {
      ReplaceAllOne(c, '(', "\\(");
      if c == '(' {
        EscapeRest("\\(", 1);
      } else {
        ReplaceAllOne(c, ')', "\\)");
        if c == ')' {
          EscapeRest("\\)", 2);
        } else {
          ReplaceAllOne(c, '\r', "\\r");
          if c == '\r' {
            EscapeRest("\\r", 3);
          } else {
            ReplaceAllOne(c, '\n', "\\r");
          }
        }
      }
    }
  }

  /** The replacements after step k leave an escape inserted by step k alone. */
  lemma EscapeRest(t: string, k: nat)
    requires k < 4
    requires t == ["\\\\", "\\(", "\\)", "\\r"][k]
    ensures var b := if k < 1 then ReplaceAll(t, '(', "\\(") else t;
      var c := if k < 2 then ReplaceAll(b, ')', "\\)") else b;
      var d := if k < 3 then ReplaceAll(c, '\r', "\\r") else c;
      ReplaceAll(d, '\n', "\\r") == t
  {
    if k < 1 { ReplaceAllAbsent(t, '(', "\\("); }
    if k < 2 { ReplaceAllAbsent(t, ')', "\\)"); }
    if k < 3 { ReplaceAllAbsent(t, '\r', "\\r"); }
    ReplaceAllAbsent(t, '\n', "\\r");
  }

  lemma ReplaceAllOne(c: char, x: char, rep: string)
    ensures ReplaceAll([c], x, rep) == if c == x then rep else [c]
  {
    assert [c][1..] == [];
  }

  lemma {:induction false} ReplaceAllAbsent(s: string, x: char, rep: string)
    requires NoChar(s, x)
    ensures ReplaceAll(s, x, rep) == s
  {
    if s != [] {
      ReplaceAllAbsent(s[1..], x, rep);
    }
  }

  /** A parenthesis-delimited PostScript string reader: a backslash takes the
      next character literally, except that `\r` stands for a carriage
      return. */
  function Unescape(t: string): string
  {
    if t == [] then []
    else if t[0] == '\\' && |t| >= 2 then (if t[1] == 'r' then "\r" else [t[1]]) + Unescape(t[2..])
    else [t[0]] + Unescape(t[1..])
  }

  /** Every backslash starts a two-character escape and no parenthesis, CR or
      LF stands bare, so the text can sit between `(` and `)`. */
  predicate WellEscaped(t: string)
  {
    if t == [] then true
    else if t[0] == '\\' then |t| >= 2 && t[1] in {'\\', '(', ')', 'r'} && WellEscaped(t[2..])
    else t[0] !in {'(', ')', '\r', '\n'} && WellEscaped(t[1..])
  }

  function LfToCr(s: string): string
  {
    if s == [] then [] else (if s[0] == '\n' then "\r" else [s[0]]) + LfToCr(s[1..])
  }

  /** Text without line feeds is its own LfToCr. */
  lemma {:induction false} LfToCrNoLf(s: string)
    requires NoChar(s, '\n')
    ensures LfToCr(s) == s
  {
    if s != [] {
      assert s[0] != '\n';
      assert NoChar(s[1..], '\n');
      LfToCrNoLf(s[1..]);
    }
  }

  /** Escaped text is well formed and reads back as the original with every
      line feed turned into a carriage return. */
  lemma {:induction false} EscapeRoundTrip(s: string)
    ensures WellEscaped(EscapePsString(s))
    ensures Unescape(EscapePsString(s)) == LfToCr(s)
  {
    EscapePsStringCharwise(s);
    EscapeEachRoundTrip(s);
  }

  lemma {:induction false} EscapeEachRoundTrip(s: string)
    ensures WellEscaped(EscapeEach(s))
    ensures Unescape(EscapeEach(s)) == LfToCr(s)
  {
    if s != [] {
      EscapeEachRoundTrip(s[1..]);
      var t := EscapeEach(s);
      var e := EscapeChar(s[0]);
      assert t == e + EscapeEach(s[1..]);
      if |e| == 2 {
        assert t[2..] == EscapeEach(s[1..]);
      } else {
        assert t[1..] == EscapeEach(s[1..]);
      }
    }
  }

  // ---------------------------------------------------------------------
  // sanitizePostScriptName
  // ---------------------------------------------------------------------

  /** The characters matched by the regular-expression class `\s`. */
  predicate IsJsWhitespace(c: char)
  {
    var n := c as int;
    (0x09 <= n <= 0x0D) || n == 0x20 || n == 0xA0 || n == 0x1680 || (0x2000 <= n <= 0x200A)
    || n == 0x2028 || n == 0x2029 || n == 0x202F || n == 0x205F || n == 0x3000 || n == 0xFEFF
  }

  function RemoveWhitespace(s: string): (r: string)
    ensures |r| <= |s|
  {
    if s == [] then [] else (if IsJsWhitespace(s[0]) then [] else [s[0]]) + RemoveWhitespace(s[1..])
  }

  /** An empty family becomes "Regular"; otherwise every whitespace run is
      removed. */
  function SanitizePostScriptName(name: string): string
  {
    if name == "" then "Regular" else RemoveWhitespace(name)
  }

  predicate NoWhitespace(s: string) {
    forall i :: 0 <= i < |s| ==> !IsJsWhitespace(s[i])
  }

  lemma {:induction false} RemoveWhitespaceProps(s: string)
    ensures NoWhitespace(RemoveWhitespace(s))
    ensures NoWhitespace(s) ==> RemoveWhitespace(s) == s
  {
    if s != [] {
      RemoveWhitespaceProps(s[1..]);
      if NoWhitespace(s) {
        assert NoWhitespace(s[1..]);
      }
    }
  }

  /** An empty name becomes "Regular"; the synthesised PostScript name holds
      no whitespace, a name without whitespace is kept as it is, and
      sanitising twice changes nothing more unless the name was all
      whitespace. */
  lemma SanitizeProps(name: string)
    ensures name == "" ==> SanitizePostScriptName(name) == "Regular"
    ensures NoWhitespace(SanitizePostScriptName(name))
    ensures name != "" && NoWhitespace(name) ==> SanitizePostScriptName(name) == name
    ensures SanitizePostScriptName(name) != "" ==>
      SanitizePostScriptName(SanitizePostScriptName(name)) == SanitizePostScriptName(name)
  {
    RemoveWhitespaceProps(name);
    var r := SanitizePostScriptName(name);
    RemoveWhitespaceProps(r);
  }

  /** Array.prototype.join('\n'). */
  function JoinLines(lines: seq<string>): string
  {
    if lines == [] then ""
    else if |lines| == 1 then lines[0]
    else JoinLines(lines[..|lines| - 1]) + "\n" + lines[|lines| - 1]
  }
}
