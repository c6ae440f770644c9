/** Additional layer information blocks (buildAdditionalLayerInfoBlock):
    '8BIM', a four-byte key, the unpadded payload length as a u32, the
    payload, and one zero byte when the payload length is odd.  The Unicode
    layer name ('luni') is one such block. */
module InfoBlocks {
  import opened Bytes
  import opened Text
  import opened Descriptors

  const LuniKey: Bytes := [0x6C, 0x75, 0x6E, 0x69]  // 'luni'
  const TyShKey: Bytes := [0x54, 0x79, 0x53, 0x68]  // 'TySh'

  /** The block around a payload; the key is four character codes. */
  function InfoBlock(key: Bytes, data: Bytes): (r: Bytes)
    requires |key| == 4
  {
    var pad: Bytes := if |data| % 2 == 0 then [] else [0];
    Signature + key + BE32(|data|) + data + pad
  }

  /** The block's fixed fields: '8BIM' at 0, the key at 4, the unpadded
      length at 8, the payload from 12, and a total that is the payload
      rounded up to even plus 12, the pad byte being zero. */
  lemma InfoBlockLayout(key: Bytes, data: Bytes)
    requires |key| == 4 && |data| < 0x1_0000_0000
    ensures var r := InfoBlock(key, data);
      && |r| == 12 + |data| + |data| % 2
      && |r| % 2 == 0
      && r[..4] == Signature
      && r[4..8] == key
      && U32At(r, 8) == |data|
      && r[12..12 + |data|] == data
      && (forall i :: 12 + |data| <= i < |r| ==> r[i] == 0)
  {
    InfoBlockSize(key, data);
    InfoBlockFields(key, data);
  }

  lemma InfoBlockSize(key: Bytes, data: Bytes)
    requires |key| == 4
    ensures |InfoBlock(key, data)| == 12 + |data| + |data| % 2
    ensures |InfoBlock(key, data)| % 2 == 0
  {
    EvenRounding(|data|);
  }

  lemma InfoBlockFields(key: Bytes, data: Bytes)
    requires |key| == 4 && |data| < 0x1_0000_0000
    ensures var r := InfoBlock(key, data);
      && |r| >= 12 + |data|
      && r[..4] == Signature
      && r[4..8] == key
      && U32At(r, 8) == |data|
      && r[12..12 + |data|] == data
      && (forall i :: 12 + |data| <= i < |r| ==> r[i] == 0)
  {
    var pad: Bytes := if |data| % 2 == 0 then [] else [0];
    var head := Signature + key;
    BlockFields(head, BE32(|data|), data, pad);
    assert head[..4] == Signature && head[4..] == key;
    DecodeEncodeFits(|data|, 4);
  }

  /** Slices of a block assembled from an eight-byte head, a length word,
      the payload and the pad. */
  lemma BlockFields(head: Bytes, word: Bytes, data: Bytes, pad: Bytes)
    requires |head| == 8 && |word| == 4 && forall i :: 0 <= i < |pad| ==> pad[i] == 0
    ensures var r := head + word + data + pad;
      && r[..4] == head[..4] && r[4..8] == head[4..] && r[8..12] == word
      && r[12..12 + |data|] == data
      && (forall i :: 12 + |data| <= i < |r| ==> r[i] == 0)
  {
    var r := head + word + data + pad;
    assert r[..8] == head;
    forall i | 12 + |data| <= i < |r| ensures r[i] == 0 {
      assert r[i] == pad[i - 12 - |data|];
    }
  }

  lemma EvenRounding(n: nat)
    ensures (n + n % 2) % 2 == 0
  {
    if n % 2 == 1 {
      assert n + 1 == (n / 2 + 1) * 2;
    } else {
      assert n == (n / 2) * 2;
    }
  }

  /** A reader for one block: the key, the payload, and what follows the
      pad byte. */
  function ReadInfoBlock(b: Bytes): Option<(Bytes, Bytes, Bytes)>
  {
    if |b| < 12 || b[..4] != Signature then None
    else
      var n := U32At(b, 8);
      if |b| < 12 + n + n % 2 then None else Some((b[4..8], b[12..12 + n], b[12 + n + n % 2..]))
  }

  /** A block reads back as its key and payload, and the reader resumes
      right after the pad byte. */
  lemma InfoBlockRoundTrip(key: Bytes, data: Bytes, rest: Bytes)
    requires |key| == 4 && |data| < 0x1_0000_0000
    ensures ReadInfoBlock(InfoBlock(key, data) + rest) == Some((key, data, rest))
  {
    var r := InfoBlock(key, data);
    InfoBlockLayout(key, data);
    var b := r + rest;
    assert b[..12 + |data|] == r[..12 + |data|];
    assert b[..4] == Signature;
    assert b[8..12] == r[8..12];
    assert b[4..8] == key;
    assert b[12..12 + |data|] == data;
    assert b[|r|..] == rest;
  }

  /** buildAdditionalLayerInfoBlock: a zeroed buffer of 12 + padded length,
      then the signature, the key, the length word and the payload. */
  method BuildAdditionalLayerInfoBlock(key: Bytes, data: Bytes) returns (r: Bytes)
    requires |key| == 4
    ensures r == InfoBlock(key, data)
  {
    var paddedLength := |data| + |data| % 2;
    var buffer := new byte[12 + paddedLength](_ => 0);
    WriteInfoHeader(buffer, key, |data|);
    WriteBytes(buffer, 12, data);
    ghost var written := buffer[..12 + |data|];
    if |data| % 2 == 1 {
      buffer[12 + |data|] := 0;
      assert buffer[..] == written + [0];
    } else {
      assert buffer[..] == written;
    }
    r := buffer[..];
  }

  /** The first twelve bytes: '8BIM', the key, the length word. */
  method WriteInfoHeader(buffer: array<byte>, key: Bytes, n: nat)
    requires |key| == 4 && 12 <= buffer.Length
    modifies buffer
    ensures buffer[..12] == Signature + key + BE32(n)
  {
    WriteBytes(buffer, 0, Signature);
    assert buffer[..4] == Signature;
    WriteBytes(buffer, 4, key);
    assert buffer[..8] == Signature + key;
    WriteBE(buffer, 8, n, 4);
  }

  // ---------------------------------------------------------------------
  // buildUnicodeLayerNameInfo
  // ---------------------------------------------------------------------

  /** The 'luni' block: the layer name as a Unicode string. */
  function UnicodeNameBlock(name: string): Bytes
  {
    InfoBlock(LuniKey, UnicodeString(name))
  }

  /** The 'luni' block reads back as its key and the name's UTF-16 code
      units, with nothing after them inside the block. */
  lemma UnicodeNameRoundTrip(name: string, rest: Bytes)
    requires 4 + 2 * |Utf16(name)| < 0x1_0000_0000
    ensures ReadInfoBlock(UnicodeNameBlock(name) + rest) == Some((LuniKey, UnicodeString(name), rest))
    ensures DecodeUnicodeString(UnicodeString(name)) == Some((Utf16(name), []))
  {
    InfoBlockRoundTrip(LuniKey, UnicodeString(name), rest);
    UnicodeStringRoundTrip(name, []);
    assert UnicodeString(name) + [] == UnicodeString(name);
  }

  method BuildUnicodeLayerNameInfo(name: string) returns (r: Bytes)
    ensures r == UnicodeNameBlock(name)
  {
    var unicode := EncodeUnicodeStringWithLength(name);
    r := BuildAdditionalLayerInfoBlock(LuniKey, unicode);
  }
}
