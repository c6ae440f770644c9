/** Raster layers and the composite image: the canvas pixels split into
    red, green, blue and alpha planes (canvasToChannels), the layer record
    with its channel table, blend fields and extra data (buildRasterLayer),
    and the planar composite image data (encodeCompositeImage). */
module Raster {
  import opened Bytes
  import opened Text
  import opened Descriptors

  /** The pixels of a canvas as getImageData returns them: four bytes (red,
      green, blue, alpha) per pixel, row by row. */
  datatype Image = Image(width: nat, height: nat, data: Bytes)

  predicate ValidImage(img: Image)
  {
    |img.data| == 4 * (img.width * img.height)
  }

  // ---------------------------------------------------------------------
  // Planes
  // ---------------------------------------------------------------------

  /** Sample c (0 red, 1 green, 2 blue, 3 alpha) of each of n pixels. */
  function Channel(data: Bytes, n: nat, c: nat): (r: Bytes)
    requires c < 4 && 4 * n <= |data|
    ensures |r| == n
    ensures forall i :: 0 <= i < n ==> r[i] == data[4 * i + c]
  {
    seq(n, i requires 0 <= i < n => data[4 * i + c])
  }

  /** The four planes of n interleaved pixels, in channel order. */
  function Planes(data: Bytes, n: nat): (r: seq<Bytes>)
    requires 4 * n <= |data|
    ensures |r| == 4 && forall c :: 0 <= c < 4 ==> r[c] == Channel(data, n, c)
  {
    [Channel(data, n, 0), Channel(data, n, 1), Channel(data, n, 2), Channel(data, n, 3)]
  }

  predicate PlanesOf(planes: seq<Bytes>, n: nat)
  {
    |planes| == 4 && forall c :: 0 <= c < 4 ==> |planes[c]| == n
  }

  /** The inverse of splitting: pixel i takes its four samples from the
      planes, in channel order. */
  function Interleave(planes: seq<Bytes>, n: nat): (r: Bytes)
    requires PlanesOf(planes, n)
    ensures |r| == 4 * n
  {
    seq(4 * n, j requires 0 <= j < 4 * n => planes[j % 4][j / 4])
  }

  /** Splitting the pixels into planes loses nothing: interleaving the
      planes gives the pixels back. */
  lemma SplitInterleave(data: Bytes, n: nat)
    requires |data| == 4 * n
    ensures PlanesOf(Planes(data, n), n)
    ensures Interleave(Planes(data, n), n) == data
  {
    var planes := Planes(data, n);
    forall j | 0 <= j < 4 * n
      ensures Interleave(planes, n)[j] == data[j]
    {
      assert planes[j % 4][j / 4] == data[4 * (j / 4) + j % 4];
    }
  }

  /** And the other way: the planes of interleaved planes are those planes. */
  lemma InterleaveSplit(planes: seq<Bytes>, n: nat)
    requires PlanesOf(planes, n)
    ensures Planes(Interleave(planes, n), n) == planes
  {
    var data := Interleave(planes, n);
    forall c | 0 <= c < 4
      ensures Channel(data, n, c) == planes[c]
    {
      forall i | 0 <= i < n
        ensures Channel(data, n, c)[i] == planes[c][i]
      {
        assert (4 * i + c) % 4 == c && (4 * i + c) / 4 == i;
      }
    }
  }

  /** A plane whose samples agree with the pixels is that channel. */
  lemma ChannelOf(a: Bytes, data: Bytes, n: nat, c: nat)
    requires c < 4 && 4 * n <= |data| && |a| == n
    requires forall j :: 0 <= j < n ==> a[j] == data[4 * j + c]
    ensures a == Channel(data, n, c)
  {
  }

  /** canvasToChannels: one pass over the pixels filling four arrays. */
  method CanvasToChannels(img: Image) returns (channels: seq<Bytes>)
    requires ValidImage(img)
    ensures channels == Planes(img.data, img.width * img.height)
  {
    channels := SplitChannels(img.data, img.width * img.height);
  }

  /** The loop of canvasToChannels over the n pixels of the image data. */
  method SplitChannels(data: Bytes, channelLength: nat) returns (channels: seq<Bytes>)
    requires |data| == 4 * channelLength
    ensures channels == Planes(data, channelLength)
  {
    var red := new byte[channelLength](_ => 0);
    var green := new byte[channelLength](_ => 0);
    var blue := new byte[channelLength](_ => 0);
    var alpha := new byte[channelLength](_ => 0);
    var i := 0;
    while i < channelLength
      invariant 0 <= i <= channelLength
      invariant forall j :: 0 <= j < i ==> red[j] == data[4 * j]
      invariant forall j :: 0 <= j < i ==> green[j] == data[4 * j + 1]
      invariant forall j :: 0 <= j < i ==> blue[j] == data[4 * j + 2]
      invariant forall j :: 0 <= j < i ==> alpha[j] == data[4 * j + 3]
    {
      red[i] := data[i * 4];
      green[i] := data[i * 4 + 1];
      blue[i] := data[i * 4 + 2];
      alpha[i] := data[i * 4 + 3];
      i := i + 1;
    }
    ChannelOf(red[..], data, channelLength, 0);
    ChannelOf(green[..], data, channelLength, 1);
    ChannelOf(blue[..], data, channelLength, 2);
    ChannelOf(alpha[..], data, channelLength, 3);
    channels := [red[..], green[..], blue[..], alpha[..]];
  }

  // ---------------------------------------------------------------------
  // The layer record
  // ---------------------------------------------------------------------

  /** A row of the channel table: the channel id (-1 for alpha) and the
      plane it describes. */
  datatype ChannelEntry = ChannelEntry(id: int, data: Bytes)

  /** The entries in the order the record lists them: red 0, green 1,
      blue 2, alpha -1. */
  function ChannelEntries(planes: seq<Bytes>): (es: seq<ChannelEntry>)
    requires |planes| == 4
  {
    [ChannelEntry(0, planes[0]), ChannelEntry(1, planes[1]), ChannelEntry(2, planes[2]), ChannelEntry(-1, planes[3])]
  }

  const ChannelIds: seq<int> := [0, 1, 2, -1]

  /** A table row: the id as a 16-bit field, then the length of the
      channel's data, which counts the 2-byte compression tag. */
  function EntryBytes(e: ChannelEntry): (r: Bytes)
    ensures |r| == 6
  {
    BE16(e.id) + BE32(|e.data| + 2)
  }

  function EntryTable(es: seq<ChannelEntry>): (r: Bytes)
    ensures |r| == 6 * |es|
  {
    if es == [] then [] else EntryTable(es[..|es| - 1]) + EntryBytes(es[|es| - 1])
  }

  /** Row k of the table sits at 6 * k. */
  lemma {:induction false} EntryTableAt(es: seq<ChannelEntry>, k: nat)
    requires k < |es|
    ensures EntryTable(es)[6 * k..6 * k + 6] == EntryBytes(es[k])
  {
    var n := |es|;
    var init, last := EntryTable(es[..n - 1]), EntryBytes(es[n - 1]);
    if k < n - 1 {
      EntryTableAt(es[..n - 1], k);
      assert es[..n - 1][k] == es[k];
      RowBefore(init, last, 6 * k);
    } else {
      assert es[k] == es[n - 1];
      RowLast(init, last, 6 * k);
    }
  }

  lemma RowBefore(a: Bytes, b: Bytes, i: nat)
    requires i + 6 <= |a|
    ensures (a + b)[i..i + 6] == a[i..i + 6]
  {
  }

  lemma RowLast(a: Bytes, b: Bytes, i: nat)
    requires |a| == i && |b| == 6
    ensures (a + b)[i..i + 6] == b
  {
  }

  /** The bounds (top 0, left 0, bottom the height, right the width) and
      the channel count. */
  function RecordHead(width: int, height: int, count: int): (r: Bytes)
    ensures |r| == 18
  {
    BE32(0) + BE32(0) + BE32(height) + BE32(width) + BE16(count)
  }

  const NormalMode: Bytes := [0x6E, 0x6F, 0x72, 0x6D]  // 'norm'

  /** Opacity 255, clipping 0, flags 0, filler 0. */
  const OpacityFields: Bytes := [255, 0, 0, 0]

  /** The blend signature and mode, opacity and flags, and the length of
      the extra data that follows. */
  function BlendFields(extraLength: int): (r: Bytes)
    ensures |r| == 16
  {
    Signature + NormalMode + OpacityFields + BE32(extraLength)
  }

  /** The extra data: an empty layer mask, empty blending ranges, the
      Pascal name and the additional information blocks. */
  function ExtraData(nameData: Bytes, additionalBytes: Bytes): (r: Bytes)
    ensures |r| == 8 + |nameData| + |additionalBytes|
  {
    BE32(0) + BE32(0) + nameData + additionalBytes
  }

  /** A record over the encoded name and the concatenated blocks. */
  function RecordOf(count: int, table: Bytes, width: int, height: int, nameData: Bytes, additionalBytes: Bytes): Bytes
  {
    var extra := ExtraData(nameData, additionalBytes);
    RecordHead(width, height, count) + (table + (BlendFields(|extra|) + extra))
  }

  function RasterRecord(es: seq<ChannelEntry>, width: int, height: int, name: string, additional: seq<Bytes>): Bytes
  {
    RecordOf(|es|, EntryTable(es), width, height, PascalBytes(name), Flatten(additional))
  }

  /** Channel data as stored after the records: compression 0 (raw), then
      the plane. */
  function ChannelData(plane: Bytes): Bytes
  {
    [0, 0] + plane
  }

  function ChannelDataOf(es: seq<ChannelEntry>): (r: seq<Bytes>)
    ensures |r| == |es| && forall k :: 0 <= k < |es| ==> r[k] == ChannelData(es[k].data)
  {
    seq(|es|, k requires 0 <= k < |es| => ChannelData(es[k].data))
  }

  /** What buildRasterLayer returns: the record and the channel data. */
  datatype Layer = Layer(record: Bytes, channelData: seq<Bytes>)

  function RasterLayer(name: string, img: Image, additional: seq<Bytes>): Layer
    requires ValidImage(img)
  {
    var es := ChannelEntries(Planes(img.data, img.width * img.height));
    Layer(RasterRecord(es, img.width, img.height, name, additional), ChannelDataOf(es))
  }

  // ---------------------------------------------------------------------
  // Reading the record back
  // ---------------------------------------------------------------------

  /** Five fields of widths 4, 4, 4, 4 and 2 laid end to end. */
  lemma FiveFields(r: Bytes, a: Bytes, b: Bytes, c: Bytes, d: Bytes, e: Bytes)
    requires |a| == |b| == |c| == |d| == 4 && |e| == 2
    requires r == a + b + c + d + e
    ensures r[0..4] == a && r[4..8] == b && r[8..12] == c && r[12..16] == d && r[16..18] == e
  {
  }

  /** Four fields of width 4 laid end to end. */
  lemma FourFields(r: Bytes, a: Bytes, b: Bytes, c: Bytes, d: Bytes)
    requires |a| == |b| == |c| == |d| == 4
    requires r == a + b + c + d
    ensures r[0..4] == a && r[4..8] == b && r[8..12] == c && r[12..16] == d
  {
  }

  /** A slice of the left operand of a concatenation. */
  lemma SliceBefore(a: Bytes, b: Bytes, i: nat, j: nat)
    requires i <= j <= |a|
    ensures (a + b)[i..j] == a[i..j]
  {
  }

  lemma RecordHeadFields(width: int, height: int, count: int)
    ensures var h := RecordHead(width, height, count);
      && I32At(h, 0) == 0 && I32At(h, 4) == 0
      && I32At(h, 8) == ToInt32(height) && I32At(h, 12) == ToInt32(width)
      && U16At(h, 16) == count % 0x1_0000
  {
    var h := RecordHead(width, height, count);
    FiveFields(h, BE32(0), BE32(0), BE32(height), BE32(width), BE16(count));
    Int32FieldAt(h, 0, 0);
    Int32FieldAt(h, 4, 0);
    Int32FieldAt(h, 8, height);
    Int32FieldAt(h, 12, width);
    Uint16FieldAt(h, 16, count);
  }

  lemma BlendFieldsOf(extraLength: int)
    ensures var b := BlendFields(extraLength);
      && b[0..4] == Signature && b[4..8] == NormalMode && b[8..12] == OpacityFields
      && U32At(b, 12) == extraLength % 0x1_0000_0000
  {
    var b := BlendFields(extraLength);
    FourFields(b, Signature, NormalMode, OpacityFields, BE32(extraLength));
    Uint32FieldAt(b, 12, extraLength);
  }

  lemma ExtraDataFields(nameData: Bytes, additionalBytes: Bytes)
    ensures var x := ExtraData(nameData, additionalBytes);
      && U32At(x, 0) == 0 && U32At(x, 4) == 0
      && x[8..] == nameData + additionalBytes
  {
    var x := ExtraData(nameData, additionalBytes);
    assert x == BE32(0) + BE32(0) + (nameData + additionalBytes);
    assert x[0..4] == BE32(0) && x[4..8] == BE32(0);
    Uint32FieldAt(x, 0, 0);
    Uint32FieldAt(x, 4, 0);
  }

  /** Reading a 32-bit field or a 16-bit field of a part gives the same
      value in the whole. */
  lemma FieldsAfter(a: Bytes, b: Bytes, k: nat)
    ensures k + 2 <= |b| ==> U16At(a + b, |a| + k) == U16At(b, k) && I16At(a + b, |a| + k) == I16At(b, k)
    ensures k + 4 <= |b| ==> U32At(a + b, |a| + k) == U32At(b, k) && I32At(a + b, |a| + k) == I32At(b, k)
  {
    if k + 2 <= |b| {
      SliceAfter(a, b, k, 2);
    }
    if k + 4 <= |b| {
      SliceAfter(a, b, k, 4);
    }
  }

  lemma FieldsBefore(a: Bytes, b: Bytes, k: nat)
    ensures k + 2 <= |a| ==> U16At(a + b, k) == U16At(a, k) && I16At(a + b, k) == I16At(a, k)
    ensures k + 4 <= |a| ==> U32At(a + b, k) == U32At(a, k) && I32At(a + b, k) == I32At(a, k)
  {
    if k + 2 <= |a| {
      SliceBefore(a, b, k, k + 2);
    }
    if k + 4 <= |a| {
      SliceBefore(a, b, k, k + 4);
    }
  }

  /** Where each field of a record made of these four parts sits. */
  lemma RecordParts(head: Bytes, table: Bytes, blend: Bytes, extra: Bytes)
    requires |head| == 18 && |blend| == 16 && |extra| >= 8
    ensures var r := head + (table + (blend + extra)); var t := 18 + |table|;
      && |r| == t + 16 + |extra|
      && r[0..4] == head[0..4] && r[4..8] == head[4..8] && r[8..12] == head[8..12]
      && r[12..16] == head[12..16] && r[16..18] == head[16..18]
      && r[18..t] == table
      && r[t..t + 4] == blend[0..4] && r[t + 4..t + 8] == blend[4..8]
      && r[t + 8..t + 12] == blend[8..12] && r[t + 12..t + 16] == blend[12..16]
      && r[t + 16..] == extra
      && r[t + 16..t + 20] == extra[0..4] && r[t + 20..t + 24] == extra[4..8]
      && r[t + 24..] == extra[8..]
  {
    var r := head + (table + (blend + extra));
    var t := 18 + |table|;
    assert r[18..] == table + (blend + extra);
    assert r[t..] == blend + extra;
    assert r[t + 16..] == extra;
  }

  /** The record over any channel table, name bytes and blocks: its
      length, the bounds and count, the table at 18, the blend fields
      after it, the extra length field holding the length of what follows
      it, the two empty lengths, then the name bytes and the blocks. */
  lemma RecordOfLayout(count: int, table: Bytes, width: int, height: int, nameData: Bytes, additionalBytes: Bytes)
    ensures var r := RecordOf(count, table, width, height, nameData, additionalBytes);
      var t := 18 + |table|;
      && |r| == t + 24 + |nameData| + |additionalBytes|
      && I32At(r, 0) == 0 && I32At(r, 4) == 0
      && I32At(r, 8) == ToInt32(height) && I32At(r, 12) == ToInt32(width)
      && U16At(r, 16) == count % 0x1_0000
      && r[18..t] == table
      && r[t..t + 4] == Signature && r[t + 4..t + 8] == NormalMode
      && r[t + 8..t + 12] == OpacityFields
      && U32At(r, t + 12) == |r[t + 16..]| % 0x1_0000_0000
      && U32At(r, t + 16) == 0 && U32At(r, t + 20) == 0
      && r[t + 24..] == nameData + additionalBytes
  {
    var extra := ExtraData(nameData, additionalBytes);
    RecordParts(RecordHead(width, height, count), table, BlendFields(|extra|), extra);
    RecordHeadFields(width, height, count);
    BlendFieldsOf(|extra|);
    ExtraDataFields(nameData, additionalBytes);
  }

  /** The same for a raster layer's record: after the two empty lengths,
      the Pascal name reads back followed by exactly the additional blocks. */
  lemma RasterRecordLayout(es: seq<ChannelEntry>, width: int, height: int, name: string, additional: seq<Bytes>)
    ensures var r := RasterRecord(es, width, height, name, additional);
      var t := 18 + 6 * |es|;
      && |r| >= t + 24
      && U32At(r, t + 12) == |r[t + 16..]| % 0x1_0000_0000
      && ReadPascal(r[t + 24..]) == Some((Utf8(name)[..Min(255, |Utf8(name)|)], Flatten(additional)))
  {
    RecordReadsBack(RasterRecord(es, width, height, name, additional), |es|, EntryTable(es),
                    width, height, name, Flatten(additional), 18 + 6 * |es|);
  }

  lemma RecordReadsBack(r: Bytes, count: int, table: Bytes, width: int, height: int, name: string, f: Bytes, t: int)
    requires r == RecordOf(count, table, width, height, PascalBytes(name), f) && t == 18 + |table|
    ensures |r| >= t + 24
      && U32At(r, t + 12) == |r[t + 16..]| % 0x1_0000_0000
      && ReadPascal(r[t + 24..]) == Some((Utf8(name)[..Min(255, |Utf8(name)|)], f))
  {
    RecordOfLayout(count, table, width, height, PascalBytes(name), f);
    PascalRoundTrip(name, f);
  }

  /** A slice of a slice. */
  lemma SubSlice(s: Bytes, a: nat, b: nat, i: nat, j: nat)
    requires a <= b <= |s| && i <= j <= b - a
    ensures s[a..b][i..j] == s[a + i..a + j]
  {
    assert forall x :: 0 <= x < j - i ==> s[a..b][i..j][x] == s[a + i..a + j][x];
  }

  /** The two fields of a table row placed at 18 + 6 * k. */
  lemma RowIn(r: Bytes, table: Bytes, e: ChannelEntry, k: nat)
    requires k < 4 && 42 <= |r| && |table| == 24
    requires r[18..42] == table && table[6 * k..6 * k + 6] == EntryBytes(e)
    ensures r[18 + 6 * k..20 + 6 * k] == BE16(e.id)
    ensures r[20 + 6 * k..24 + 6 * k] == BE32(|e.data| + 2)
  {
    var row := EntryBytes(e);
    SubSlice(r, 18, 42, 6 * k, 6 * k + 6);
    SubSlice(r, 18 + 6 * k, 24 + 6 * k, 0, 2);
    SubSlice(r, 18 + 6 * k, 24 + 6 * k, 2, 6);
    assert row[0..2] == BE16(e.id) && row[2..6] == BE32(|e.data| + 2);
  }

  /** Row k of a table of four rows, read in the record. */
  lemma TableRow(table: Bytes, e: ChannelEntry, width: int, height: int, nameData: Bytes, additionalBytes: Bytes, k: nat)
    requires |table| == 24 && k < 4 && table[6 * k..6 * k + 6] == EntryBytes(e) && -0x8000 <= e.id < 0x8000
    ensures var r := RecordOf(4, table, width, height, nameData, additionalBytes);
      && |r| >= 42
      && U16At(r, 16) == 4
      && I16At(r, 18 + 6 * k) == e.id
      && U32At(r, 20 + 6 * k) == (|e.data| + 2) % 0x1_0000_0000
  {
    var r := RecordOf(4, table, width, height, nameData, additionalBytes);
    RecordOfLayout(4, table, width, height, nameData, additionalBytes);
    RowIn(r, table, e, k);
    Int16FieldAt(r, 18 + 6 * k, e.id);
    Uint32FieldAt(r, 20 + 6 * k, |e.data| + 2);
  }

  /** The channel table of a raster layer agrees with its channel data:
      four rows with ids 0, 1, 2 and -1, each length field holding the
      length of that channel's data, which is the raw tag and the plane. */
  lemma RasterLayerChannels(name: string, img: Image, additional: seq<Bytes>, k: nat)
    requires ValidImage(img) && k < 4
    ensures var layer := RasterLayer(name, img, additional);
      var r := layer.record;
      && |layer.channelData| == 4
      && |r| >= 42
      && U16At(r, 16) == 4
      && I16At(r, 18 + 6 * k) == ChannelIds[k]
      && U32At(r, 20 + 6 * k) == |layer.channelData[k]| % 0x1_0000_0000
      && layer.channelData[k] == [0, 0] + Channel(img.data, img.width * img.height, k)
  {
    var n := img.width * img.height;
    var planes := Planes(img.data, n);
    var es := ChannelEntries(planes);
    assert es[k].id == ChannelIds[k] && es[k].data == planes[k];
    EntryTableAt(es, k);
    TableRow(EntryTable(es), es[k], img.width, img.height, PascalBytes(name), Flatten(additional), k);
  }

  /** The planes stored in a raster layer's channel data, with their tags
      dropped, interleave back to the canvas pixels. */
  lemma RasterLayerPixels(name: string, img: Image, additional: seq<Bytes>)
    requires ValidImage(img)
    ensures var data := RasterLayer(name, img, additional).channelData;
      var n := img.width * img.height;
      && |data| == 4
      && PlanesOf([data[0][2..], data[1][2..], data[2][2..], data[3][2..]], n)
      && Interleave([data[0][2..], data[1][2..], data[2][2..], data[3][2..]], n) == img.data
  {
    var n := img.width * img.height;
    var data := RasterLayer(name, img, additional).channelData;
    var planes := Planes(img.data, n);
    assert [data[0][2..], data[1][2..], data[2][2..], data[3][2..]] == planes;
    SplitInterleave(img.data, n);
  }

  // ---------------------------------------------------------------------
  // buildRasterLayer
  // ---------------------------------------------------------------------

  /** The bounds and the channel count, written from offset 0. */
  method WriteBoundsAndCount(buf: array<byte>, width: int, height: int, count: int)
    requires 18 <= buf.Length
    modifies buf
    ensures buf[..18] == RecordHead(width, height, count)
  {
    WriteBE(buf, 0, 0, 4);
    WriteBE(buf, 4, 0, 4);
    WriteBE(buf, 8, height, 4);
    WriteBE(buf, 12, width, 4);
    WriteBE(buf, 16, count, 2);
  }

  /** One row of the channel table at an offset. */
  method WriteEntry(buf: array<byte>, offset: nat, e: ChannelEntry)
    requires offset + 6 <= buf.Length
    modifies buf
    ensures buf[..offset + 6] == old(buf[..offset]) + EntryBytes(e)
  {
    ghost var before := buf[..offset];
    WriteBE(buf, offset, e.id, 2);
    WriteBE(buf, offset + 2, |e.data| + 2, 4);
    assert buf[..offset + 6] == before + BE16(e.id) + BE32(|e.data| + 2);
  }

  /** The bounds, the count and the channel table, written from offset 0. */
  method WriteRecordHead(buf: array<byte>, es: seq<ChannelEntry>, width: int, height: int)
    requires 18 + 6 * |es| <= buf.Length
    modifies buf
    ensures buf[..18 + 6 * |es|] == RecordHead(width, height, |es|) + EntryTable(es)
  {
    WriteBoundsAndCount(buf, width, height, |es|);
    ghost var head := RecordHead(width, height, |es|);
    var offset := 18;
    var k := 0;
    while k < |es|
      invariant 0 <= k <= |es| && offset == 18 + 6 * k
      invariant buf[..offset] == head + EntryTable(es[..k])
    {
      ghost var table := EntryTable(es[..k]);
      assert es[..k + 1][..k] == es[..k];
      assert EntryTable(es[..k + 1]) == table + EntryBytes(es[k]);
      WriteEntry(buf, offset, es[k]);
      Regroup(head, table, EntryBytes(es[k]));
      offset := offset + 6;
      k := k + 1;
    }
    assert es[..k] == es;
  }

  /** The blend fields at an offset: signature, mode, the four opacity and
      flag bytes assigned one by one, and the extra length. */
  method WriteBlendFields(buf: array<byte>, offset: nat, extraLength: int)
    requires offset + 16 <= buf.Length
    modifies buf
    ensures buf[..offset + 16] == old(buf[..offset]) + BlendFields(extraLength)
  {
    ghost var before := buf[..offset];
    WriteBytes(buf, offset, Signature);
    WriteBytes(buf, offset + 4, NormalMode);
    var o := offset + 8;
    ghost var named := buf[..o];
    buf[o] := 255;
    buf[o + 1] := 0;
    buf[o + 2] := 0;
    buf[o + 3] := 0;
    assert buf[..o + 4] == named + OpacityFields;
    WriteBE(buf, o + 4, extraLength, 4);
    Regroup4(before, Signature, NormalMode, OpacityFields, BE32(extraLength));
  }

  /** The extra data at an offset: the two empty lengths, the name and,
      when there are any, the additional blocks. */
  method WriteExtraData(buf: array<byte>, offset: nat, nameData: Bytes, additionalBytes: Bytes)
    requires offset + 8 + |nameData| + |additionalBytes| <= buf.Length
    modifies buf
    ensures buf[..offset + 8 + |nameData| + |additionalBytes|]
      == old(buf[..offset]) + ExtraData(nameData, additionalBytes)
  {
    ghost var before := buf[..offset];
    WriteBE(buf, offset, 0, 4);
    WriteBE(buf, offset + 4, 0, 4);
    var o := offset + 8;
    WriteBytes(buf, o, nameData);
    o := o + |nameData|;
    if |additionalBytes| > 0 {
      WriteBytes(buf, o, additionalBytes);
      o := o + |additionalBytes|;
    }
    Regroup4(before, BE32(0), BE32(0), nameData, additionalBytes);
  }

  method BuildChannelData(plane: Bytes) returns (r: Bytes)
    ensures r == ChannelData(plane)
  {
    var data := new byte[2 + |plane|](_ => 0);
    data[0] := 0;
    data[1] := 0;
    WriteBytes(data, 2, plane);
    assert data[..] == data[..2 + |plane|];
    r := data[..];
  }

  /** The record of buildRasterLayer: the name and the blocks encoded,
      then the record over them. */
  method BuildRasterRecord(es: seq<ChannelEntry>, width: int, height: int, name: string, additional: seq<Bytes>)
    returns (r: Bytes)
    ensures r == RasterRecord(es, width, height, name, additional)
  {
    var nameData := PascalString(name);
    var additionalBytes: Bytes := [];
    if |additional| > 0 {
      additionalBytes := ConcatUint8Arrays(additional);
    }
    assert additionalBytes == Flatten(additional);
    r := WriteRecord(es, width, height, nameData, additionalBytes);
  }

  /** The record's length computed up front, then the fields written at a
      running offset. */
  method WriteRecord(es: seq<ChannelEntry>, width: int, height: int, nameData: Bytes, additionalBytes: Bytes)
    returns (r: Bytes)
    ensures r == RecordOf(|es|, EntryTable(es), width, height, nameData, additionalBytes)
  {
    var extraLength := 4 + 0 + 4 + 0 + |nameData| + |additionalBytes|;
    var recordLength := 16 + 2 + |es| * 6 + 12 + 4 + extraLength;
    var record := new byte[recordLength](_ => 0);
    WriteRecordHead(record, es, width, height);
    var offset := 18 + |es| * 6;
    ghost var s1 := record[..offset];
    WriteBlendFields(record, offset, extraLength);
    offset := offset + 16;
    ghost var s2 := record[..offset];
    WriteExtraData(record, offset, nameData, additionalBytes);
    assert record[..] == s2 + ExtraData(nameData, additionalBytes);
    ghost var extra := ExtraData(nameData, additionalBytes);
    Assembled(RecordHead(width, height, |es|), EntryTable(es), BlendFields(extraLength), extra, s1, s2);
    assert |extra| == extraLength;
    r := record[..];
  }

  lemma Regroup(p: Bytes, a: Bytes, b: Bytes)
    ensures p + a + b == p + (a + b)
  {
  }

  lemma Regroup4(p: Bytes, a: Bytes, b: Bytes, c: Bytes, d: Bytes)
    ensures p + a + b + c + d == p + (a + b + c + d)
  {
  }

  lemma Assembled(head: Bytes, table: Bytes, blend: Bytes, extra: Bytes, s1: Bytes, s2: Bytes)
    requires s1 == head + table && s2 == s1 + blend
    ensures s2 + extra == head + (table + (blend + extra))
  {
  }

  /** buildRasterLayer over the canvas pixels and the additional blocks. */
  method BuildRasterLayer(name: string, img: Image, additional: seq<Bytes>) returns (layer: Layer)
    requires ValidImage(img)
    ensures layer == RasterLayer(name, img, additional)
  {
    var channels := CanvasToChannels(img);
    var channelEntries := ChannelEntries(channels);
    var record := BuildRasterRecord(channelEntries, img.width, img.height, name, additional);
    var channelData: seq<Bytes> := [];
    var k := 0;
    while k < |channelEntries|
      invariant 0 <= k <= |channelEntries|
      invariant channelData == ChannelDataOf(channelEntries)[..k]
    {
      var data := BuildChannelData(channelEntries[k].data);
      channelData := channelData + [data];
      k := k + 1;
    }
    layer := Layer(record, channelData);
  }

  // ---------------------------------------------------------------------
  // encodeCompositeImage
  // ---------------------------------------------------------------------

  /** The four planes one after another. */
  function PlanarPixels(data: Bytes, n: nat): (r: Bytes)
    requires 4 * n <= |data|
    ensures |r| == 4 * n
  {
    Channel(data, n, 0) + Channel(data, n, 1) + Channel(data, n, 2) + Channel(data, n, 3)
  }

  /** The image data section: compression 0 (raw), then the planes. */
  function CompositeImage(img: Image): (r: Bytes)
    requires ValidImage(img)
  {
    BE16(0) + PlanarPixels(img.data, img.width * img.height)
  }

  /** The four n-byte planes stored after the 2-byte header. */
  function Quarters(r: Bytes, n: nat): (q: seq<Bytes>)
    requires |r| == 2 + 4 * n
    ensures PlanesOf(q, n)
  {
    [r[2..2 + n], r[2 + n..2 + 2 * n], r[2 + 2 * n..2 + 3 * n], r[2 + 3 * n..]]
  }

  /** The composite is 2 + 4n bytes, its compression field is 0, its four
      n-byte planes are the canvas channels, and they interleave back to the
      canvas pixels. */
  lemma CompositeRoundTrip(img: Image)
    requires ValidImage(img)
    ensures var r := CompositeImage(img); var n := img.width * img.height;
      && |r| == 2 + 4 * n
      && U16At(r, 0) == 0
      && Quarters(r, n) == Planes(img.data, n)
      && Interleave(Quarters(r, n), n) == img.data
  {
    var n := img.width * img.height;
    var r := CompositeImage(img);
    var planes := Planes(img.data, n);
    QuarterSlices(r, BE16(0), planes[0], planes[1], planes[2], planes[3], n);
    Uint16FieldAt(r, 0, 0);
    assert Quarters(r, n) == planes;
    SplitInterleave(img.data, n);
  }

  /** Header h then four n-byte parts: each part is found at its offset. */
  lemma QuarterSlices(r: Bytes, h: Bytes, a: Bytes, b: Bytes, c: Bytes, d: Bytes, n: nat)
    requires r == h + (a + b + c + d) && |h| == 2
    requires |a| == n && |b| == n && |c| == n && |d| == n
    ensures r[0..2] == h
    ensures r[2..2 + n] == a && r[2 + n..2 + 2 * n] == b
    ensures r[2 + 2 * n..2 + 3 * n] == c && r[2 + 3 * n..] == d
  {
    var p := a + b + c + d;
    assert p[..n] == a && p[n..2 * n] == b && p[2 * n..3 * n] == c && p[3 * n..] == d;
    SliceAfter(h, p, 0, n);
    SliceAfter(h, p, n, n);
    SliceAfter(h, p, 2 * n, n);
    assert r[2 + 3 * n..] == p[3 * n..];
  }

  /** encodeCompositeImage: the 2-byte header (compression 0, raw) and the
      planes, concatenated. */
  method EncodeCompositeImage(img: Image) returns (r: Bytes)
    requires ValidImage(img)
    ensures r == CompositeImage(img)
  {
    var header := new byte[2](_ => 0);
    WriteBE(header, 0, 0, 2);
    assert header[..] == BE16(0);
    var pixelData := PlanarFromPixels(img.data, img.width * img.height);
    r := ConcatUint8Arrays([header[..], pixelData]);
    FlattenPair(header[..], pixelData);
  }

  /** The loop of encodeCompositeImage: sample c of pixel i goes to
      i + channelSize * c, one pass over the pixels. */
  method PlanarFromPixels(data: Bytes, channelSize: nat) returns (r: Bytes)
    requires 4 * channelSize <= |data|
    ensures r == PlanarPixels(data, channelSize)
  {
    ghost var red := Channel(data, channelSize, 0);
    ghost var green := Channel(data, channelSize, 1);
    ghost var blue := Channel(data, channelSize, 2);
    ghost var alpha := Channel(data, channelSize, 3);
    var pixelData := new byte[channelSize * 4](_ => 0);
    var i := 0;
    while i < channelSize
      invariant 0 <= i <= channelSize
      invariant forall j :: 0 <= j < i ==> pixelData[j] == red[j]
      invariant forall j :: 0 <= j < i ==> pixelData[j + channelSize] == green[j]
      invariant forall j :: 0 <= j < i ==> pixelData[j + channelSize * 2] == blue[j]
      invariant forall j :: 0 <= j < i ==> pixelData[j + channelSize * 3] == alpha[j]
    {
      WritePixel(pixelData, data, channelSize, i);
      i := i + 1;
    }
    r := pixelData[..];
    PlanarFilled(r, channelSize, red, green, blue, alpha);
  }

  /** One iteration: the four samples of pixel i go to their planes and
      nothing else changes. */
  method WritePixel(pixelData: array<byte>, data: Bytes, channelSize: nat, i: nat)
    requires i < channelSize && pixelData.Length == channelSize * 4 && 4 * channelSize <= |data|
    modifies pixelData
    ensures pixelData[i] == data[i * 4]
    ensures pixelData[i + channelSize] == data[i * 4 + 1]
    ensures pixelData[i + channelSize * 2] == data[i * 4 + 2]
    ensures pixelData[i + channelSize * 3] == data[i * 4 + 3]
    ensures forall k :: 0 <= k < pixelData.Length && k != i && k != i + channelSize && k != i + channelSize * 2 && k != i + channelSize * 3
              ==> pixelData[k] == old(pixelData[k])
  {
    pixelData[i] := data[i * 4];
    pixelData[i + channelSize] := data[i * 4 + 1];
    pixelData[i + channelSize * 2] := data[i * 4 + 2];
    pixelData[i + channelSize * 3] := data[i * 4 + 3];
  }

  lemma PlanarFilled(p: Bytes, n: nat, red: Bytes, green: Bytes, blue: Bytes, alpha: Bytes)
    requires |p| == 4 * n && |red| == |green| == |blue| == |alpha| == n
    requires forall j :: 0 <= j < n ==> p[j] == red[j]
    requires forall j :: 0 <= j < n ==> p[j + n] == green[j]
    requires forall j :: 0 <= j < n ==> p[j + n * 2] == blue[j]
    requires forall j :: 0 <= j < n ==> p[j + n * 3] == alpha[j]
    ensures p == red + green + blue + alpha
  {
    forall k | 0 <= k < 4 * n
      ensures p[k] == (red + green + blue + alpha)[k]
    {
      if k < n {
      } else if k < 2 * n {
        assert p[(k - n) + n] == green[k - n];
      } else if k < 3 * n {
        assert p[(k - 2 * n) + n * 2] == blue[k - 2 * n];
      } else {
        assert p[(k - 3 * n) + n * 3] == alpha[k - 3 * n];
      }
    }
  }
}
