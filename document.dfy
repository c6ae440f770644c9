/** The PSD file itself: the 26-byte header (createPsdHeader), the layer
    and mask information section (createLayerInfoSection) and the file
    laid out section after section (buildPsdDocument). */
module Document {
  import opened Bytes
  import opened Raster
  import opened InfoBlocks
  import opened Text
  import LayerPlan

  // ---------------------------------------------------------------------
  // The file header
  // ---------------------------------------------------------------------

  /** '8BPS', as the 32-bit word the header stores first. */
  const PsdSignatureWord := 0x3842_5053
  const PsdSignature: Bytes := [0x38, 0x42, 0x50, 0x53]

  function Zeros(n: nat): (r: Bytes)
    ensures |r| == n && forall k :: 0 <= k < n ==> r[k] == 0
  {
    seq(n, _ => 0)
  }

  /** Signature, version 1, six reserved zero bytes, 4 channels (RGBA),
      height, width, 8 bits per channel, colour mode 3 (RGB). */
  function PsdHeader(width: int, height: int): (r: Bytes)
    ensures |r| == 26
  {
    BE32(PsdSignatureWord) + BE16(1) + Zeros(6) + BE16(4) + BE32(height) + BE32(width) + BE16(8) + BE16(3)
  }

  /** What a reader finds at the start of the header: the signature bytes
      '8BPS', version 1, six zero bytes and 4 channels. */
  lemma PsdHeaderStart(width: int, height: int)
    ensures var r := PsdHeader(width, height);
      && r[0..4] == PsdSignature
      && U16At(r, 4) == 1
      && (forall k :: 6 <= k < 12 ==> r[k] == 0)
      && U16At(r, 12) == 4
  {
    var r := PsdHeader(width, height);
    HeaderParts(r, BE32(PsdSignatureWord), BE16(1), Zeros(6), BE16(4), BE32(height), BE32(width), BE16(8), BE16(3));
    SignatureWordBytes();
    Uint16FieldAt(r, 4, 1);
    Uint16FieldAt(r, 12, 4);
  }

  /** And at its end: the height and width modulo 2^32, depth 8 and the
      RGB mode. */
  lemma PsdHeaderImage(width: int, height: int)
    ensures var r := PsdHeader(width, height);
      && U32At(r, 14) == height % 0x1_0000_0000
      && U32At(r, 18) == width % 0x1_0000_0000
      && U16At(r, 22) == 8
      && U16At(r, 24) == 3
  {
    var r := PsdHeader(width, height);
    HeaderParts(r, BE32(PsdSignatureWord), BE16(1), Zeros(6), BE16(4), BE32(height), BE32(width), BE16(8), BE16(3));
    Uint32FieldAt(r, 14, height);
    Uint32FieldAt(r, 18, width);
    Uint16FieldAt(r, 22, 8);
    Uint16FieldAt(r, 24, 3);
  }

  /** The word written first spells '8BPS'. */
  lemma SignatureWordBytes()
    ensures BE32(PsdSignatureWord) == PsdSignature
  {
    BE32Unfold(PsdSignatureWord);
  }

  lemma HeaderParts(r: Bytes, a: Bytes, b: Bytes, c: Bytes, d: Bytes, e: Bytes, f: Bytes, g: Bytes, h: Bytes)
    requires |a| == 4 && |b| == 2 && |c| == 6 && |d| == 2 && |e| == 4 && |f| == 4 && |g| == 2 && |h| == 2
    requires r == a + b + c + d + e + f + g + h
    ensures r[0..4] == a && r[4..6] == b && r[6..12] == c && r[12..14] == d
    ensures r[14..18] == e && r[18..22] == f && r[22..24] == g && r[24..26] == h
  {
  }

  /** createPsdHeader: the DataView setters at their offsets and the loop
      clearing the reserved bytes. */
  method CreatePsdHeader(width: int, height: int) returns (r: Bytes)
    ensures r == PsdHeader(width, height)
  {
    var buffer := new byte[26](_ => 0);
    WriteHeaderStart(buffer);
    ghost var s := buffer[..12];
    WriteHeaderRest(buffer, width, height);
    assert buffer[..] == buffer[..26];
    r := buffer[..];
    HeaderAssembled(s, BE16(4), BE32(height), BE32(width), BE16(8), BE16(3));
  }

  lemma HeaderAssembled(s: Bytes, d: Bytes, e: Bytes, f: Bytes, g: Bytes, h: Bytes)
    ensures s + d + e + f + g + h == s + (d + e + f + g + h)
  {
  }

  /** The signature, the version and the reserved bytes. */
  method WriteHeaderStart(buffer: array<byte>)
    requires buffer.Length == 26
    modifies buffer
    ensures buffer[..12] == BE32(PsdSignatureWord) + BE16(1) + Zeros(6)
  {
    WriteBE(buffer, 0, PsdSignatureWord, 4);
    WriteBE(buffer, 4, 1, 2);
    ghost var s := buffer[..6];
    for i := 6 to 12
      invariant buffer[..i] == s + Zeros(i - 6)
    {
      buffer[i] := 0;
      assert buffer[..i + 1] == buffer[..i] + [0];
    }
  }

  /** The channel count, the size, the depth and the mode. */
  method WriteHeaderRest(buffer: array<byte>, width: int, height: int)
    requires buffer.Length == 26
    modifies buffer
    ensures buffer[..26] == old(buffer[..12]) + (BE16(4) + BE32(height) + BE32(width) + BE16(8) + BE16(3))
  {
    WriteBE(buffer, 12, 4, 2);
    WriteBE(buffer, 14, height, 4);
    WriteBE(buffer, 18, width, 4);
    ghost var s := buffer[..22];
    WriteBE(buffer, 22, 8, 2);
    WriteBE(buffer, 24, 3, 2);
    assert buffer[..26] == s + BE16(8) + BE16(3);
  }

  // ---------------------------------------------------------------------
  // The layer and mask information section
  // ---------------------------------------------------------------------

  /** layers.map(layer => layer.record) */
  function Records(layers: seq<Layer>): (r: seq<Bytes>)
    ensures |r| == |layers| && forall k :: 0 <= k < |layers| ==> r[k] == layers[k].record
  {
    seq(|layers|, k requires 0 <= k < |layers| => layers[k].record)
  }

  /** layers.flatMap(layer => layer.channelData): every layer's channel
      data, layer after layer. */
  function AllChannelData(layers: seq<Layer>): seq<Bytes>
  {
    if layers == [] then [] else AllChannelData(layers[..|layers| - 1]) + layers[|layers| - 1].channelData
  }

  /** A zero byte when the layer information would have odd length. */
  function Padding(n: nat): (r: Bytes)
    ensures |r| == n % 2 && forall k :: 0 <= k < |r| ==> r[k] == 0
  {
    if n % 2 != 0 then [0] else []
  }

  /** The section over the concatenated records and channel data: its
      length, the layer information length (count, records and channel data,
      rounded up to even), the layer count, the two buffers, the padding and
      an empty global layer mask. */
  function LayerInfoOf(count: int, records: Bytes, channels: Bytes): Bytes
  {
    var raw := 2 + |records| + |channels|;
    SectionOf(raw + raw % 2, count, records, channels, Padding(raw))
  }

  /** The section's bytes for a given layer information length and padding. */
  function SectionOf(lil: int, count: int, records: Bytes, channels: Bytes, pad: Bytes): Bytes
  {
    BE32(4 + lil + 4) + BE32(lil) + BE16(count) + records + channels + pad + BE32(0)
  }

  function LayerInfoSection(layers: seq<Layer>): Bytes
  {
    LayerInfoOf(|layers|, Flatten(Records(layers)), Flatten(AllChannelData(layers)))
  }

  /** What a reader of the section finds: the first length counts every
      byte after it, the second the layer information up to the global
      mask field, both modulo 2^32; the layer information length is even
      and at most one byte longer than its contents; the count (modulo
      2^16), the records and the channel data follow each other from byte
      10, then zero bytes up to the end, and the global mask length is 0. */
  lemma LayerInfoLayout(count: int, records: Bytes, channels: Bytes)
    ensures var r := LayerInfoOf(count, records, channels);
      var raw := 2 + |records| + |channels|;
      var end := 10 + |records| + |channels|;
      && |r| >= end + 4
      && U32At(r, 0) == (|r| - 4) % 0x1_0000_0000
      && U32At(r, 4) == (|r| - 12) % 0x1_0000_0000
      && (|r| - 12) % 2 == 0 && raw <= |r| - 12 <= raw + 1
      && U16At(r, 8) == count % 0x1_0000
      && r[10..10 + |records|] == records
      && r[10 + |records|..end] == channels
      && r[end..|r| - 4] == Padding(raw)
      && U32At(r, |r| - 4) == 0
  {
    LayerInfoLengths(count, records, channels);
    LayerInfoContents(count, records, channels);
  }

  lemma LayerInfoLengths(count: int, records: Bytes, channels: Bytes)
    ensures var r := LayerInfoOf(count, records, channels);
      var raw := 2 + |records| + |channels|;
      && U32At(r, 0) == (|r| - 4) % 0x1_0000_0000
      && U32At(r, 4) == (|r| - 12) % 0x1_0000_0000
      && (|r| - 12) % 2 == 0 && raw <= |r| - 12 <= raw + 1
      && U16At(r, 8) == count % 0x1_0000
      && U32At(r, |r| - 4) == 0
  {
    var raw := 2 + |records| + |channels|;
    EvenRounding(raw);
    SectionLengths(raw + raw % 2, count, records, channels, Padding(raw));
  }

  lemma LayerInfoContents(count: int, records: Bytes, channels: Bytes)
    ensures var r := LayerInfoOf(count, records, channels);
      var raw := 2 + |records| + |channels|;
      var end := 10 + |records| + |channels|;
      && |r| >= end + 4
      && r[10..10 + |records|] == records
      && r[10 + |records|..end] == channels
      && r[end..|r| - 4] == Padding(raw)
  {
    LayerInfoRecords(count, records, channels);
    LayerInfoChannels(count, records, channels);
    LayerInfoPadding(count, records, channels);
  }

  lemma LayerInfoRecords(count: int, records: Bytes, channels: Bytes)
    ensures var r := LayerInfoOf(count, records, channels);
      |r| >= 10 + |records| && r[10..10 + |records|] == records
  {
    var raw := 2 + |records| + |channels|;
    SectionContents(raw + raw % 2, count, records, channels, Padding(raw));
  }

  lemma LayerInfoChannels(count: int, records: Bytes, channels: Bytes)
    ensures var r := LayerInfoOf(count, records, channels);
      var end := 10 + |records| + |channels|;
      |r| >= end && r[10 + |records|..end] == channels
  {
    var raw := 2 + |records| + |channels|;
    SectionContents(raw + raw % 2, count, records, channels, Padding(raw));
  }

  lemma LayerInfoPadding(count: int, records: Bytes, channels: Bytes)
    ensures var r := LayerInfoOf(count, records, channels);
      var raw := 2 + |records| + |channels|;
      var end := 10 + |records| + |channels|;
      |r| == end + |Padding(raw)| + 4 && r[end..|r| - 4] == Padding(raw)
  {
    var raw := 2 + |records| + |channels|;
    SectionContents(raw + raw % 2, count, records, channels, Padding(raw));
  }

  /** Where the records, the channel data and the padding sit in a section. */
  lemma SectionContents(lil: int, count: int, records: Bytes, channels: Bytes, pad: Bytes)
    ensures var r := SectionOf(lil, count, records, channels, pad);
      var end := 10 + |records| + |channels|;
      && |r| == end + |pad| + 4
      && r[10..10 + |records|] == records
      && r[10 + |records|..end] == channels
      && r[end..|r| - 4] == pad
  {
    SectionParts(BE32(4 + lil + 4), BE32(lil), BE16(count), records, channels, pad, BE32(0));
  }

  /** The length fields, the count and the empty global mask of a section
      with any padding that makes the layer information length even. */
  lemma SectionLengths(lil: int, count: int, records: Bytes, channels: Bytes, pad: Bytes)
    requires lil == 2 + |records| + |channels| + |pad| && lil % 2 == 0 && |pad| <= 1
    ensures var r := SectionOf(lil, count, records, channels, pad);
      var raw := 2 + |records| + |channels|;
      && |r| == lil + 12
      && U32At(r, 0) == (|r| - 4) % 0x1_0000_0000
      && U32At(r, 4) == (|r| - 12) % 0x1_0000_0000
      && (|r| - 12) % 2 == 0 && raw <= |r| - 12 <= raw + 1
      && U16At(r, 8) == count % 0x1_0000
      && U32At(r, |r| - 4) == 0
  {
    var r := SectionOf(lil, count, records, channels, pad);
    SectionParts(BE32(4 + lil + 4), BE32(lil), BE16(count), records, channels, pad, BE32(0));
    Decodes32(4 + lil + 4);
    Decodes32(lil);
    Decodes32(0);
    DecodeEncode(count, 2);
    FieldsRead(r, lil, count, BE32(4 + lil + 4), BE32(lil), BE16(count), BE32(0));
  }

  lemma Decodes32(v: int)
    ensures DecodeBE(BE32(v)) == v % 0x1_0000_0000
  {
    DecodeEncode(v, 4);
  }

  /** The four numeric fields, read through the bytes stored in them. */
  lemma FieldsRead(r: Bytes, lil: int, count: int, a: Bytes, b: Bytes, c: Bytes, z: Bytes)
    requires lil >= 0 && |r| == lil + 12 && r[0..4] == a && r[4..8] == b && r[8..10] == c && r[|r| - 4..|r|] == z
    requires DecodeBE(a) == (4 + lil + 4) % 0x1_0000_0000 && DecodeBE(b) == lil % 0x1_0000_0000
    requires DecodeBE(c) == count % 0x1_0000 && DecodeBE(z) == 0
    ensures U32At(r, 0) == (|r| - 4) % 0x1_0000_0000 && U32At(r, 4) == (|r| - 12) % 0x1_0000_0000
    ensures U16At(r, 8) == count % 0x1_0000 && U32At(r, |r| - 4) == 0
  {
    assert |r| - 4 == 4 + lil + 4 && |r| - 12 == lil;
  }

  /** Where each part of the section's concatenation sits. */
  lemma SectionParts(a: Bytes, b: Bytes, c: Bytes, records: Bytes, channels: Bytes, pad: Bytes, z: Bytes)
    requires |a| == 4 && |b| == 4 && |c| == 2 && |z| == 4
    ensures var r := a + b + c + records + channels + pad + z;
      var end := 10 + |records| + |channels|;
      && |r| == end + |pad| + 4
      && r[0..4] == a && r[4..8] == b && r[8..10] == c
      && r[10..10 + |records|] == records && r[10 + |records|..end] == channels
      && r[end..end + |pad|] == pad && r[|r| - 4..] == z && r[|r| - 4..|r|] == z
  {
  }

  /** Record k of the section starts after the count and the records
      before it. */
  lemma LayerRecordAt(layers: seq<Layer>, k: nat)
    requires k < |layers|
    ensures var r := LayerInfoSection(layers);
      var start := 10 + TotalLength(Records(layers)[..k]);
      && start + |layers[k].record| <= |r|
      && r[start..start + |layers[k].record|] == layers[k].record
  {
    var records := Flatten(Records(layers));
    var channels := Flatten(AllChannelData(layers));
    FlattenLayout(Records(layers), k);
    LayerInfoLayout(|layers|, records, channels);
    var r := LayerInfoSection(layers);
    var lo := TotalLength(Records(layers)[..k]);
    SubRange(r, records, 10, lo, lo + |layers[k].record|);
  }

  /** A range inside a part found at offset o. */
  lemma SubRange(r: Bytes, part: Bytes, o: nat, i: nat, j: nat)
    requires i <= j <= |part| && o + |part| <= |r| && r[o..o + |part|] == part
    ensures r[o + i..o + j] == part[i..j]
  {
    forall x | 0 <= x < j - i
      ensures r[o + i..o + j][x] == part[i..j][x]
    {
      assert r[o + i + x] == r[o..o + |part|][i + x];
    }
  }

  /** createLayerInfoSection over the built layers. */
  method CreateLayerInfoSection(layers: seq<Layer>) returns (r: Bytes)
    ensures r == LayerInfoSection(layers)
  {
    var recordBuffer := ConcatUint8Arrays(Records(layers));
    var channelBuffer := ConcatUint8Arrays(AllChannelData(layers));
    r := WriteLayerInfo(|layers|, recordBuffer, channelBuffer);
  }

  /** The lengths, the count, both buffers, the padding and the empty
      global mask, written at a running offset. */
  method WriteLayerInfo(count: int, recordBuffer: Bytes, channelBuffer: Bytes) returns (r: Bytes)
    ensures r == LayerInfoOf(count, recordBuffer, channelBuffer)
  {
    var layerInfoLength := RoundUpToEven(2 + |recordBuffer| + |channelBuffer|);
    var totalLength := 4 + layerInfoLength + 4;
    var buffer := new byte[4 + totalLength](_ => 0);
    WriteSectionHead(buffer, totalLength, layerInfoLength, count);
    ghost var s1 := buffer[..10];
    var offset := WriteSectionBody(buffer, 10, recordBuffer, channelBuffer);
    ghost var s2 := buffer[..offset];
    WriteUint32(buffer, offset, 0);
    assert buffer[..] == buffer[..offset + 4];
    r := buffer[..];
    SectionAssembled(s1, recordBuffer, channelBuffer, Padding(2 + |recordBuffer| + |channelBuffer|), s2, BE32(0));
    LayerInfoOfHead(count, recordBuffer, channelBuffer, layerInfoLength, s1);
  }

  lemma LayerInfoOfHead(count: int, records: Bytes, channels: Bytes, layerInfoLength: nat, head: Bytes)
    requires layerInfoLength == 2 + |records| + |channels| + (2 + |records| + |channels|) % 2
    requires head == BE32(4 + layerInfoLength + 4) + BE32(layerInfoLength) + BE16(count)
    ensures LayerInfoOf(count, records, channels) == head + records + channels + Padding(2 + |records| + |channels|) + BE32(0)
  {
  }

  /** The layer information length: one more when it is odd. */
  method RoundUpToEven(n: nat) returns (m: nat)
    ensures m == n + n % 2
  {
    m := n;
    if m % 2 != 0 {
      m := m + 1;
    }
  }

  lemma SectionAssembled(s1: Bytes, records: Bytes, channels: Bytes, pad: Bytes, s2: Bytes, z: Bytes)
    requires s2 == s1 + (records + channels + pad)
    ensures s2 + z == s1 + records + channels + pad + z
  {
  }

  /** The two lengths and the layer count (writeInt16). */
  method WriteSectionHead(buffer: array<byte>, totalLength: int, layerInfoLength: int, count: int)
    requires 10 <= buffer.Length
    modifies buffer
    ensures buffer[..10] == BE32(totalLength) + BE32(layerInfoLength) + BE16(count)
  {
    WriteUint32(buffer, 0, totalLength);
    WriteUint32(buffer, 4, layerInfoLength);
    WriteInt16(buffer, 8, count);
  }

  /** The records, the channel data, and the pad byte when the layer
      information so far has odd length. */
  method WriteSectionBody(buffer: array<byte>, start: nat, records: Bytes, channels: Bytes) returns (offset: nat)
    requires start == 10 && start + |records| + |channels| + 1 <= buffer.Length
    modifies buffer
    ensures offset == start + |records| + |channels| + (2 + |records| + |channels|) % 2 <= buffer.Length
    ensures buffer[..offset] == old(buffer[..start]) + (records + channels + Padding(2 + |records| + |channels|))
  {
    offset := start;
    WriteBytes(buffer, offset, records);
    offset := offset + |records|;
    WriteBytes(buffer, offset, channels);
    offset := offset + |channels|;
    ghost var s := buffer[..offset];
    if (offset - 8) % 2 != 0 {
      buffer[offset] := 0;
      assert buffer[..offset + 1] == s + [0];
      offset := offset + 1;
    }
    assert buffer[..offset] == s + Padding(2 + |records| + |channels|);
  }

  // ---------------------------------------------------------------------
  // The file
  // ---------------------------------------------------------------------

  /** The file: the header, the color mode data and image resources
      sections (both empty, so only their zero lengths), the layer and mask
      information section and the composite image data. */
  function PsdFile(header: Bytes, layerInfo: Bytes, composite: Bytes): Bytes
  {
    header + BE32(0) + BE32(0) + layerInfo + composite
  }

  /** The file exported for a page: its layers drawn from the page's
      canvases, and the composite drawn from the flattened page. */
  function PsdDocument(page: LayerPlan.Page, pixels: LayerPlan.Source -> Bytes, composite: Bytes,
                       float64: real -> Bytes8, fixed2: real -> string): Bytes
    requires LayerPlan.PixelsFit(page, pixels) && |composite| == 4 * (page.width * page.height)
  {
    PsdFile(PsdHeader(page.width, page.height), LayerInfoSection(LayerPlan.Layers(page, pixels, float64, fixed2)),
            CompositeImage(Image(page.width, page.height, composite)))
  }

  /** How a reader reaches the composite image data: after the 26-byte
      header it skips the color mode data, the image resources and the
      layer and mask section, each by the length stored in front of it. */
  function CompositeStart(r: Bytes): Option<nat>
  {
    if |r| < 30 then None
    else
      var resources := 30 + U32At(r, 26);
      if |r| < resources + 4 then None
      else
        var layerSection := resources + 4 + U32At(r, resources);
        if |r| < layerSection + 4 then None
        else
          var composite := layerSection + 4 + U32At(r, layerSection);
          if |r| < composite then None else Some(composite)
  }

  /** Where each part of the file sits. */
  lemma FileLayout(header: Bytes, layerInfo: Bytes, composite: Bytes)
    requires |header| == 26
    ensures var r := PsdFile(header, layerInfo, composite);
      && |r| == 34 + |layerInfo| + |composite|
      && r[..26] == header
      && U32At(r, 26) == 0 && U32At(r, 30) == 0
      && r[34..34 + |layerInfo|] == layerInfo
      && r[34 + |layerInfo|..] == composite
  {
    var r := PsdFile(header, layerInfo, composite);
    FileParts(r, header, BE32(0), BE32(0), layerInfo, composite);
    Decodes32(0);
  }

  lemma FileParts(r: Bytes, header: Bytes, a: Bytes, b: Bytes, layerInfo: Bytes, composite: Bytes)
    requires |header| == 26 && |a| == 4 && |b| == 4
    requires r == header + a + b + layerInfo + composite
    ensures |r| == 34 + |layerInfo| + |composite|
    ensures r[..26] == header && r[26..30] == a && r[30..34] == b
    ensures r[34..34 + |layerInfo|] == layerInfo && r[34 + |layerInfo|..] == composite
  {
  }

  /** A reader skipping sections by their lengths lands on the composite
      image data, provided the layer section's length field (the bytes
      after it) holds its true length. */
  lemma FileCompositeFound(header: Bytes, layerInfo: Bytes, composite: Bytes)
    requires |header| == 26 && |layerInfo| >= 4 && U32At(layerInfo, 0) == |layerInfo| - 4
    ensures var r := PsdFile(header, layerInfo, composite);
      && CompositeStart(r) == Some(34 + |layerInfo|)
      && r[34 + |layerInfo|..] == composite
  {
    var r := PsdFile(header, layerInfo, composite);
    FileLayout(header, layerInfo, composite);
    SubRange(r, layerInfo, 34, 0, 4);
  }

  /** The exported file read back: the header holds the page's size, a
      reader finds the composite image data, and its planes interleave back
      into the composite pixels -- as long as the layer section's length
      fits its 32-bit field. */
  lemma DocumentReadBack(page: LayerPlan.Page, pixels: LayerPlan.Source -> Bytes, composite: Bytes,
                         float64: real -> Bytes8, fixed2: real -> string)
    requires LayerPlan.PixelsFit(page, pixels) && |composite| == 4 * (page.width * page.height)
    requires |LayerInfoSection(LayerPlan.Layers(page, pixels, float64, fixed2))| - 4 < 0x1_0000_0000
    ensures PsdDocument(page, pixels, composite, float64, fixed2)[..26] == PsdHeader(page.width, page.height)
    ensures CompositeStart(PsdDocument(page, pixels, composite, float64, fixed2)).Some?
    ensures CompositeStart(PsdDocument(page, pixels, composite, float64, fixed2)).value
         == 34 + |LayerInfoSection(LayerPlan.Layers(page, pixels, float64, fixed2))|
    ensures |PsdDocument(page, pixels, composite, float64, fixed2)|
         == 34 + |LayerInfoSection(LayerPlan.Layers(page, pixels, float64, fixed2))| + 2 + 4 * (page.width * page.height)
    ensures Interleave(Quarters(PsdDocument(page, pixels, composite, float64, fixed2)[34 + |LayerInfoSection(LayerPlan.Layers(page, pixels, float64, fixed2))|..],
                                page.width * page.height), page.width * page.height) == composite
  {
    var layers := LayerPlan.Layers(page, pixels, float64, fixed2);
    SectionFound(layers);
    DocumentIs(page, pixels, composite, float64, fixed2);
    var r := PsdDocument(page, pixels, composite, float64, fixed2);
    var li := LayerInfoSection(layers);
    FileReadBack(r, PsdHeader(page.width, page.height), li, page.width, page.height, composite);
  }

  lemma DocumentIs(page: LayerPlan.Page, pixels: LayerPlan.Source -> Bytes, composite: Bytes,
                   float64: real -> Bytes8, fixed2: real -> string)
    requires LayerPlan.PixelsFit(page, pixels) && |composite| == 4 * (page.width * page.height)
    ensures PsdDocument(page, pixels, composite, float64, fixed2)
         == PsdFile(PsdHeader(page.width, page.height), LayerInfoSection(LayerPlan.Layers(page, pixels, float64, fixed2)),
                    CompositeImage(Image(page.width, page.height, composite)))
  {
  }

  lemma FileReadBack(r: Bytes, header: Bytes, layerInfo: Bytes, width: nat, height: nat, composite: Bytes)
    requires |composite| == 4 * (width * height)
    requires |header| == 26 && |layerInfo| >= 4 && U32At(layerInfo, 0) == |layerInfo| - 4
    requires r == PsdFile(header, layerInfo, CompositeImage(Image(width, height, composite)))
    ensures var n := width * height;
      && r[..26] == header
      && CompositeStart(r) == Some(34 + |layerInfo|)
      && |r| == 34 + |layerInfo| + 2 + 4 * n
      && Interleave(Quarters(r[34 + |layerInfo|..], n), n) == composite
  {
    var img := Image(width, height, composite);
    FileLayout(header, layerInfo, CompositeImage(img));
    FileCompositeFound(header, layerInfo, CompositeImage(img));
    CompositeRoundTrip(img);
  }

  /** The section's first field holds the length of the rest of it. */
  lemma SectionFound(layers: seq<Layer>)
    requires |LayerInfoSection(layers)| - 4 < 0x1_0000_0000
    ensures |LayerInfoSection(layers)| >= 4 && U32At(LayerInfoSection(layers), 0) == |LayerInfoSection(layers)| - 4
  {
    LengthFieldExact(LayerInfoSection(layers), |layers|, Flatten(Records(layers)), Flatten(AllChannelData(layers)));
  }

  lemma LengthFieldExact(r: Bytes, count: int, records: Bytes, channels: Bytes)
    requires r == LayerInfoOf(count, records, channels) && |r| - 4 < 0x1_0000_0000
    ensures |r| >= 4 && U32At(r, 0) == |r| - 4
  {
    LengthWord(count, records, channels);
    WordFits(U32At(r, 0), |r| - 4);
  }

  lemma LengthWord(count: int, records: Bytes, channels: Bytes)
    ensures var r := LayerInfoOf(count, records, channels);
      |r| >= 4 && U32At(r, 0) == (|r| - 4) % 0x1_0000_0000
  {
    LayerInfoLayout(count, records, channels);
  }

  lemma WordFits(w: int, n: int)
    requires 0 <= n < 0x1_0000_0000 && w == n % 0x1_0000_0000
    ensures w == n
  {
  }

  /** buildPsdDocument: the header, the two empty sections, the layer
      section and the composite, written one after the other. */
  method BuildPsdDocument(page: LayerPlan.Page, pixels: LayerPlan.Source -> Bytes, composite: Bytes,
                          float64: real -> Bytes8, fixed2: real -> string) returns (r: Bytes)
    requires LayerPlan.PixelsFit(page, pixels) && |composite| == 4 * (page.width * page.height)
    ensures r == PsdDocument(page, pixels, composite, float64, fixed2)
  {
    var header := CreatePsdHeader(page.width, page.height);
    var layers := LayerPlan.BuildLayers(page, pixels, float64, fixed2);
    var layerInfo := CreateLayerInfoSection(layers);
    var compositeData := EncodeCompositeImage(Image(page.width, page.height, composite));
    r := WriteFile(header, layerInfo, compositeData);
  }

  /** The file written into one buffer at a running offset. */
  method WriteFile(header: Bytes, layerInfo: Bytes, composite: Bytes) returns (r: Bytes)
    ensures r == PsdFile(header, layerInfo, composite)
  {
    var colorModeData: Bytes := [];
    var imageResources: Bytes := [];
    var totalLength := |header| + 4 + |colorModeData| + 4 + |imageResources| + |layerInfo| + |composite|;
    var buffer := new byte[totalLength](_ => 0);
    var offset := WriteFileHead(buffer, header, colorModeData, imageResources);
    ghost var s := buffer[..offset];
    WriteBytes(buffer, offset, layerInfo);
    offset := offset + |layerInfo|;
    ghost var t := buffer[..offset];
    WriteBytes(buffer, offset, composite);
    offset := offset + |composite|;
    assert buffer[..] == buffer[..offset];
    r := buffer[..];
    FileAssembled(header, s, layerInfo, t, composite);
  }

  lemma FileAssembled(header: Bytes, s: Bytes, layerInfo: Bytes, t: Bytes, composite: Bytes)
    requires s == header + BE32(0) + BE32(0) && t == s + layerInfo
    ensures t + composite == PsdFile(header, layerInfo, composite)
  {
  }

  /** The header, then each empty section as its zero length and its (no)
      bytes. */
  method WriteFileHead(buffer: array<byte>, header: Bytes, colorModeData: Bytes, imageResources: Bytes)
    returns (offset: nat)
    requires colorModeData == [] && imageResources == [] && |header| + 8 <= buffer.Length
    modifies buffer
    ensures offset == |header| + 8
    ensures buffer[..offset] == header + BE32(0) + BE32(0)
  {
    offset := 0;
    WriteBytes(buffer, offset, header);
    offset := offset + |header|;
    WriteUint32(buffer, offset, |colorModeData|);
    offset := offset + 4;
    WriteBytes(buffer, offset, colorModeData);
    offset := offset + |colorModeData|;
    WriteUint32(buffer, offset, |imageResources|);
    offset := offset + 4;
    WriteBytes(buffer, offset, imageResources);
    offset := offset + |imageResources|;
  }
}
