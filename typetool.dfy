/** The type-tool block of a text layer (buildTypeToolInfo): the text, a
    pseudo-script EngineDataKey string describing one paragraph run and one
    style run, the bounds as rectangle descriptors, and the warp settings,
    all wrapped in a 'TySh' additional-information block. */
module TypeTool {
  import opened Bytes
  import opened Text
  import opened Descriptors
  import opened InfoBlocks

  /** Integer pixel bounds of a text layer. */
  datatype Rect = Rect(left: int, top: int, right: int, bottom: int)

  /** The bubble properties the type tool reads. */
  datatype TextStyle = TextStyle(fontSize: real, fontFamily: string, bold: bool)

  // ---------------------------------------------------------------------
  // buildBoundsDescriptor
  // ---------------------------------------------------------------------

  // The keys, class and enumeration identifiers of the descriptors.
  const RctnClass: string := "Rctn"
  const TopKey: string := "Top "
  const LeftKey: string := "Left"
  const BtomKey: string := "Btom"
  const RghtKey: string := "Rght"
  const PxlUnit: string := "#Pxl"
  const TxLrClass: string := "TxLr"
  const TxtKey: string := "Txt "
  const EngineDataKey: string := "EngineData"
  const BoundsKey: string := "bounds"
  const BoundingBoxKey: string := "boundingBox"
  const TextGriddingKey: string := "textGridding"
  const NoneId: string := "None"
  const OrntKey: string := "Ornt"
  const HrznId: string := "Hrzn"
  const WarpClass: string := "warp"
  const WarpStyleKey: string := "warpStyle"
  const WarpNoneId: string := "warpNone"
  const WarpValueKey: string := "warpValue"
  const WarpPerspectiveKey: string := "warpPerspective"
  const WarpPerspectiveOtherKey: string := "warpPerspectiveOther"
  const WarpRotateKey: string := "warpRotate"
  const WarpRotateHorizontalId: string := "warpRotateHorizontal"

  /** A 'Rctn' descriptor: Top, Left, Btom, Rght as pixel unit floats. */
  function BoundsDescriptor(b: Rect): Descriptor
  {
    Descriptor("", RctnClass, [
      Item(TopKey, UnitFloat(PxlUnit, b.top as real)),
      Item(LeftKey, UnitFloat(PxlUnit, b.left as real)),
      Item(BtomKey, UnitFloat(PxlUnit, b.bottom as real)),
      Item(RghtKey, UnitFloat(PxlUnit, b.right as real))])
  }

  const PxlTag: Bytes := [0x23, 0x50, 0x78, 0x6C]  // '#Pxl'

  /** A rectangle item as a reader sees it: the key, 'UntF', '#Pxl' and the
      eight bytes of the coordinate. */
  function RectItem(key: string, x: int, float64: real -> Bytes8): RawItem
  {
    RawItem(Utf8(key), UntFTag, RUnitFloat(PxlTag, float64(x as real)))
  }

  lemma BoundsWellFormed(b: Rect)
    ensures WellFormedBody(BoundsDescriptor(b))
  {
  }

  /** What a reader recovers from a rectangle: class 'Rctn' and the four
      edges in the order top, left, bottom, right, each in pixels. */
  function BoundsRaw(b: Rect, float64: real -> Bytes8): RawDescriptor
  {
    RawDescriptor([], Utf8(RctnClass), [RectItem(TopKey, b.top, float64), RectItem(LeftKey, b.left, float64),
                                     RectItem(BtomKey, b.bottom, float64), RectItem(RghtKey, b.right, float64)])
  }

  /** The rectangle reads back as BoundsRaw. */
  lemma BoundsReadBack(b: Rect, float64: real -> Bytes8, rest: Bytes)
    ensures DecodeBody(BodyBytes(BoundsDescriptor(b), float64) + rest) == Some((BoundsRaw(b, float64), rest))
  {
    BoundsWellFormed(b);
    BodyRoundTrip(BoundsDescriptor(b), float64, rest);
    BoundsRawOf(b, float64);
  }

  lemma BoundsRawOf(b: Rect, float64: real -> Bytes8)
    ensures RawBodyOf(BoundsDescriptor(b), float64) == BoundsRaw(b, float64)
  {
    var d := BoundsDescriptor(b);
    UnitItemRaw(TopKey, b.top, float64);
    UnitItemRaw(LeftKey, b.left, float64);
    UnitItemRaw(BtomKey, b.bottom, float64);
    UnitItemRaw(RghtKey, b.right, float64);
    RawItemsFour(d.items[0], d.items[1], d.items[2], d.items[3], float64);
    assert d.items == [d.items[0], d.items[1], d.items[2], d.items[3]];
  }

  lemma RawItemsFour(a: Item, b: Item, c: Item, e: Item, float64: real -> Bytes8)
    ensures RawItemsOf([a, b, c, e], float64)
      == [RawItemOf(a, float64), RawItemOf(b, float64), RawItemOf(c, float64), RawItemOf(e, float64)]
  {
    var items := [a, b, c, e];
    RawItemsCons(items[3..], float64);
    assert items[3..][1..] == [];
    RawItemsCons(items[2..], float64);
    assert items[2..][1..] == items[3..];
    RawItemsCons(items[1..], float64);
    assert items[1..][1..] == items[2..];
    RawItemsCons(items, float64);
  }

  lemma RawItemsCons(items: seq<Item>, float64: real -> Bytes8)
    requires items != []
    ensures RawItemsOf(items, float64) == [RawItemOf(items[0], float64)] + RawItemsOf(items[1..], float64)
  {
  }

  lemma UnitItemRaw(key: string, x: int, float64: real -> Bytes8)
    ensures RawItemOf(Item(key, UnitFloat(PxlUnit, x as real)), float64) == RectItem(key, x, float64)
  {
    TypeTagBytes(UnitFloat(PxlUnit, x as real));
    PxlTagBytes();
  }

  lemma PxlTagBytes()
    ensures FixedField(PxlUnit, 4) == PxlTag
  {
    FixedFieldAscii(PxlUnit);
    var f := FixedField(PxlUnit, 4);
    assert f[0] == 0x23 && f[1] == 0x50 && f[2] == 0x78 && f[3] == 0x6C;
  }

  // ---------------------------------------------------------------------
  // buildEngineDataString
  // ---------------------------------------------------------------------

  /** String(max(1, content.length)): the run covers the whole text. */
  function RunLength(content: string): (r: nat)
    ensures r >= 1 && r >= |Utf16(content)|
    ensures content != "" ==> r == |Utf16(content)|
  {
    if |Utf16(content)| < 1 then 1 else |Utf16(content)|
  }

  // The fixed fragments of the EngineData script.
  const DictOpen: string := "<<"
  const EngineDictOpen: string := "/EngineDict <<"
  const EditorVersion: string := "  /EditorVersion 160"
  const ParagraphRunOpen: string := "  /ParagraphRunArray [ << /ParagraphSheetData << /Justification 0 >> /RunLength "
  const RunClose: string := " >> ]"
  const StyleRunOpen: string := "  /StyleRunArray [ << /StyleSheetData << /FontSize "
  const LeadingKey: string := " /Leading "
  const FauxBoldKey: string := " /AutoLeading true /FauxBold "
  const ColorKeys: string := " /FauxItalic false /FillColor [ 0 0 0 1 ] /StrokeColor [ 0 0 0 1 ]"
  const PostScriptKey: string := " /FontPostScriptName ("
  const FontNameKey: string := ") /FontName ("
  const StyleRunLength: string := ") >> /RunLength "
  const FontSetOpen: string := "  /DocumentResources << /FontSet [ << /Name ("
  const FontSetPostScript: string := ") /FontPostScriptName ("
  const FontSetClose: string := ") /FontScript 0 /FontType 0 >> ] >>"
  const DefaultFontFamily: string := "sans-serif"

  /** The first six lines of the EngineData pseudo-script; `fixed2` is
      Number.prototype.toFixed(2). */
  function EngineHead(style: TextStyle, content: string, fixed2: real -> string): seq<string>
  {
    var fontSize := if style.fontSize == 0.0 then 24.0 else style.fontSize;
    var lineHeight := fontSize * 1.2;
    var fontFamily := Or(style.fontFamily, DefaultFontFamily);
    var escapedName := EscapePsString(fontFamily);
    var escapedPostScript := EscapePsString(SanitizePostScriptName(fontFamily));
    var runLength := NatToString(RunLength(content));
    [ DictOpen,
      EngineDictOpen,
      EditorVersion,
      ParagraphRunOpen + runLength + RunClose,
      StyleRunOpen + fixed2(fontSize)
        + LeadingKey + fixed2(lineHeight)
        + FauxBoldKey + (if style.bold then "true" else "false")
        + ColorKeys
        + PostScriptKey + escapedPostScript + FontNameKey + escapedName + StyleRunLength
        + runLength + RunClose,
      FontSetOpen + escapedName + FontSetPostScript + escapedPostScript + FontSetClose ]
  }

  /** All nine lines: the head, the escaped text, two closing brackets. */
  function EngineLines(style: TextStyle, content: string, fixed2: real -> string): seq<string>
  {
    EngineHead(style, content, fixed2) + ["  /Text (" + EscapePsString(content) + ")", ">>", ">>"]
  }

  function EngineData(style: TextStyle, content: string, fixed2: real -> string): string
  {
    JoinLines(EngineLines(style, content, fixed2))
  }

  /** The text after the last line feed. */
  function LastLine(s: string): string
  {
    if s == [] then []
    else if s[|s| - 1] == '\n' then []
    else LastLine(s[..|s| - 1]) + [s[|s| - 1]]
  }

  /** A reader for the text entry: the script must end with the text line
      and two closing brackets; the escaped text is read back. */
  function TextEntry(engine: string): Option<string>
  {
    var closing := ")\n>>\n>>";
    var opening := "  /Text (";
    if |engine| < |closing| || engine[|engine| - |closing|..] != closing then None
    else
      var line := LastLine(engine[..|engine| - |closing|]);
      if |line| < |opening| || line[..|opening|] != opening then None
      else Some(Unescape(line[|opening|..]))
  }

  /** The text entry of the script reads back as the content, with every
      line feed turned into a carriage return. */
  lemma TextEntryRoundTrip(style: TextStyle, content: string, fixed2: real -> string)
    ensures TextEntry(EngineData(style, content, fixed2)) == Some(LfToCr(content))
  {
    TextEntryAfter(EngineHead(style, content, fixed2), content);
  }

  /** The same for any list of lines in front of the text line. */
  lemma TextEntryAfter(head: seq<string>, content: string)
    ensures TextEntry(JoinLines(head + ["  /Text (" + EscapePsString(content) + ")", ">>", ">>"]))
      == Some(LfToCr(content))
  {
    var line := "  /Text (" + EscapePsString(content);
    var before := LinesBefore(head);
    JoinTail(head, line + ")");
    assert before + (line + ")") + "\n>>\n>>" == before + "  /Text (" + EscapePsString(content) + ")\n>>\n>>";
    assert ["  /Text (" + EscapePsString(content) + ")", ">>", ">>"] == [line + ")", ">>", ">>"];
    TextEntryBehind(before, content);
  }

  /** What JoinLines puts in front of a line appended to `head`. */
  function LinesBefore(head: seq<string>): (r: string)
    ensures r == [] || r[|r| - 1] == '\n'
  {
    if head == [] then "" else JoinLines(head) + "\n"
  }

  lemma JoinTail(head: seq<string>, a: string)
    ensures JoinLines(head + [a, ">>", ">>"]) == LinesBefore(head) + a + "\n>>\n>>"
  {
    var s := head + [a, ">>", ">>"];
    assert s[..|s| - 1] == head + [a, ">>"];
    assert (head + [a, ">>"])[..|head| + 1] == head + [a];
    assert (head + [a])[..|head|] == head;
    assert JoinLines(head + [a]) == LinesBefore(head) + a by {
      if head == [] {
        assert head + [a] == [a];
      }
    }
    var x := LinesBefore(head) + a;
    assert JoinLines(s) == x + "\n" + ">>" + "\n" + ">>";
    assert x + "\n" + ">>" + "\n" + ">>" == x + "\n>>\n>>";
  }

  /** The reader finds the text line behind any text that ends in a line
      feed (or behind nothing). */
  lemma TextEntryBehind(before: string, content: string)
    requires before == [] || before[|before| - 1] == '\n'
    ensures TextEntry(before + "  /Text (" + EscapePsString(content) + ")\n>>\n>>") == Some(LfToCr(content))
  {
    var escaped := EscapePsString(content);
    var line := "  /Text (" + escaped;
    var engine := before + "  /Text (" + escaped + ")\n>>\n>>";
    assert engine == (before + line) + ")\n>>\n>>";
    ClosingSplit(before + line, ")\n>>\n>>");
    EscapeRoundTrip(content);
    WellEscapedNoLf(escaped);
    assert NoChar("  /Text (", '\n');
    NoCharAppend("  /Text (", escaped, '\n');
    LastLineAfter(before, line);
    assert line[..9] == "  /Text (" && line[9..] == escaped;
    TextEntryOf(engine, line);
  }

  lemma ClosingSplit(body: string, closing: string)
    ensures |body + closing| >= |closing|
    ensures (body + closing)[..|body + closing| - |closing|] == body
    ensures (body + closing)[|body + closing| - |closing|..] == closing
  {
  }

  /** The reader's two checks, once they pass. */
  lemma TextEntryOf(engine: string, line: string)
    requires |engine| >= 7 && engine[|engine| - 7..] == ")\n>>\n>>"
    requires LastLine(engine[..|engine| - 7]) == line
    requires |line| >= 9 && line[..9] == "  /Text ("
    ensures TextEntry(engine) == Some(Unescape(line[9..]))
  {
  }

  lemma {:induction false} WellEscapedNoLf(t: string)
    requires WellEscaped(t)
    ensures NoChar(t, '\n')
  {
    if t != [] {
      if t[0] == '\\' {
        WellEscapedNoLf(t[2..]);
        forall i | 0 <= i < |t| ensures t[i] != '\n' {
          if i >= 2 {
            assert t[i] == t[2..][i - 2];
          }
        }
      } else {
        WellEscapedNoLf(t[1..]);
        forall i | 0 <= i < |t| ensures t[i] != '\n' {
          if i >= 1 {
            assert t[i] == t[1..][i - 1];
          }
        }
      }
    }
  }

  lemma NoCharAppend(a: string, b: string, c: char)
    requires NoChar(a, c) && NoChar(b, c)
    ensures NoChar(a + b, c)
  {
  }

  lemma {:induction false} LastLineAfter(p: string, x: string)
    requires p == [] || p[|p| - 1] == '\n'
    requires NoChar(x, '\n')
    ensures LastLine(p + x) == x
  {
    if x == [] {
      assert p + x == p;
    } else {
      var s := p + x;
      assert s[..|s| - 1] == p + x[..|x| - 1];
      LastLineAfter(p, x[..|x| - 1]);
    }
  }

  // ---------------------------------------------------------------------
  // buildTypeToolInfo
  // ---------------------------------------------------------------------

  /** The 'TxLr' descriptor: the text, the EngineData bytes, the bounds
      twice, no text gridding, horizontal orientation. */
  function TextDescriptor(normalized: string, engineBytes: Bytes, b: Rect): Descriptor
  {
    Descriptor("", TxLrClass, [
      Item(TxtKey, TextValue(normalized)),
      Item(EngineDataKey, RawData(engineBytes)),
      Item(BoundsKey, Object(BoundsDescriptor(b))),
      Item(BoundingBoxKey, Object(BoundsDescriptor(b))),
      Item(TextGriddingKey, Enumerated(TextGriddingKey, NoneId)),
      Item(OrntKey, Enumerated(OrntKey, HrznId))])
  }

  /** The 'warp' descriptor: no warp, zero values, horizontal rotation. */
  function WarpDescriptor(): Descriptor
  {
    Descriptor("", WarpClass, [
      Item(WarpStyleKey, Enumerated(WarpStyleKey, WarpNoneId)),
      Item(WarpValueKey, Doub(0.0)),
      Item(WarpPerspectiveKey, Doub(0.0)),
      Item(WarpPerspectiveOtherKey, Doub(0.0)),
      Item(WarpRotateKey, Enumerated(WarpRotateKey, WarpRotateHorizontalId))])
  }

  /** The transform [1, 0, 0, 1, left, top]: identity scale, translated to
      the top-left corner of the bounds. */
  function Transform(b: Rect): seq<real>
  {
    [1.0, 0.0, 0.0, 1.0, b.left as real, b.top as real]
  }

  /** Consecutive setFloat64 fields. */
  function Float64s(values: seq<real>, float64: real -> Bytes8): (r: Bytes)
    ensures |r| == 8 * |values|
  {
    if values == [] then [] else Float64s(values[..|values| - 1], float64) + float64(values[|values| - 1])
  }

  /** setInt32 of left, top, right, bottom. */
  function BoundsWords(b: Rect): (r: Bytes)
    ensures |r| == 16
  {
    BE32(b.left) + BE32(b.top) + BE32(b.right) + BE32(b.bottom)
  }

  /** The payload: version 1, text version 1, the transform, the text
      descriptor, the warp descriptor, the integer bounds. */
  function TypeToolPayload(desc: Bytes, warp: Bytes, b: Rect, float64: real -> Bytes8): Bytes
  {
    BE16(1) + BE16(1) + Float64s(Transform(b), float64) + desc + warp + BoundsWords(b)
  }

  /** The 'TySh' block around the payload. */
  function TypeToolBlock(desc: Bytes, warp: Bytes, b: Rect, float64: real -> Bytes8): Bytes
  {
    InfoBlock(TyShKey, TypeToolPayload(desc, warp, b, float64))
  }

  /** buildTypeToolInfo: the type-tool block of a text layer, or nothing when
      the text is empty; line ends become CR, and EngineData is the script for
      the normalised text as UTF-8. */
  function TypeToolInfo(text: string, style: TextStyle, b: Rect,
                        float64: real -> Bytes8, fixed2: real -> string): Option<Bytes>
  {
    if text == "" then None
    else
      var normalized := NormalizeToCr(text);
      var engineBytes := Utf8(EngineData(style, normalized, fixed2));
      Some(TypeToolBlock(DescriptorBytes(TextDescriptor(normalized, engineBytes, b), true, float64),
                         DescriptorBytes(WarpDescriptor(), true, float64), b, float64))
  }

  /** The text descriptor meets the limits of its 32-bit fields when the
      text and the EngineData bytes do. */
  lemma TextDescriptorWellFormed(normalized: string, engineBytes: Bytes, b: Rect)
    requires |Utf16(normalized)| < 0x1_0000_0000 && |engineBytes| < 0x1_0000_0000
    ensures WellFormedBody(TextDescriptor(normalized, engineBytes, b))
  {
    BoundsWellFormed(b);
    var d := TextDescriptor(normalized, engineBytes, b);
    KeyWellFormed(TxtKey, d.items[0].value);
    KeyWellFormed(EngineDataKey, d.items[1].value);
    KeyWellFormed(BoundsKey, d.items[2].value);
    KeyWellFormed(BoundingBoxKey, d.items[3].value);
    EnumWellFormed(TextGriddingKey, NoneId);
    KeyWellFormed(TextGriddingKey, d.items[4].value);
    EnumWellFormed(OrntKey, HrznId);
    KeyWellFormed(OrntKey, d.items[5].value);
    SixWellFormed(d);
  }

  lemma WarpWellFormed()
    ensures WellFormedBody(WarpDescriptor())
  {
    var d := WarpDescriptor();
    EnumWellFormed(WarpStyleKey, WarpNoneId);
    KeyWellFormed(WarpStyleKey, d.items[0].value);
    KeyWellFormed(WarpValueKey, d.items[1].value);
    KeyWellFormed(WarpPerspectiveKey, d.items[2].value);
    KeyWellFormed(WarpPerspectiveOtherKey, d.items[3].value);
    EnumWellFormed(WarpRotateKey, WarpRotateHorizontalId);
    KeyWellFormed(WarpRotateKey, d.items[4].value);
  }

  /** An item with a short non-empty key and a well-formed value. */
  lemma KeyWellFormed(key: string, v: Value)
    requires key != "" && |key| < 0x4000_0000 && WellFormedValue(v)
    ensures WellFormedItem(Item(key, v))
  {
  }

  lemma EnumWellFormed(t: string, e: string)
    requires t != "" && e != "" && |t| < 0x4000_0000 && |e| < 0x4000_0000
    ensures WellFormedValue(Enumerated(t, e))
  {
  }

  lemma SixWellFormed(d: Descriptor)
    requires d.name == "" && |Or(d.classId, "null")| < 0x4000_0000 && |d.items| == 6
    requires WellFormedItem(d.items[0]) && WellFormedItem(d.items[1]) && WellFormedItem(d.items[2])
    requires WellFormedItem(d.items[3]) && WellFormedItem(d.items[4]) && WellFormedItem(d.items[5])
    ensures WellFormedBody(d)
  {
  }

  /** What a reader recovers from the text descriptor: class 'TxLr' and six
      items, the text as UTF-16 units, the EngineData bytes unchanged, the
      bounds twice, no gridding, horizontal orientation. */
  function TextRaw(normalized: string, engineBytes: Bytes, b: Rect, float64: real -> Bytes8): RawDescriptor
  {
    RawDescriptor([], Utf8(TxLrClass), [
      TextRawItem(TxtKey, normalized),
      DataRawItem(EngineDataKey, engineBytes),
      ObjectRawItem(BoundsKey, BoundsRaw(b, float64)),
      ObjectRawItem(BoundingBoxKey, BoundsRaw(b, float64)),
      EnumRawItem(TextGriddingKey, TextGriddingKey, NoneId),
      EnumRawItem(OrntKey, OrntKey, HrznId)])
  }

  /** The text descriptor reads back as TextRaw, and the reader stops right
      after it. */
  lemma TextDescriptorReadBack(normalized: string, engineBytes: Bytes, b: Rect, float64: real -> Bytes8, rest: Bytes)
    requires |Utf16(normalized)| < 0x1_0000_0000 && |engineBytes| < 0x1_0000_0000
    ensures DecodeBody(BodyBytes(TextDescriptor(normalized, engineBytes, b), float64) + rest)
      == Some((TextRaw(normalized, engineBytes, b, float64), rest))
  {
    TextDescriptorWellFormed(normalized, engineBytes, b);
    BodyRoundTrip(TextDescriptor(normalized, engineBytes, b), float64, rest);
    TextRawOf(normalized, engineBytes, b, float64);
  }

  lemma TextRawOf(normalized: string, engineBytes: Bytes, b: Rect, float64: real -> Bytes8)
    ensures RawBodyOf(TextDescriptor(normalized, engineBytes, b), float64) == TextRaw(normalized, engineBytes, b, float64)
  {
    BoundsRawOf(b, float64);
    TextShapeRaw(TxtKey, EngineDataKey, BoundsKey, BoundingBoxKey, TextGriddingKey, OrntKey,
                 normalized, engineBytes, BoundsDescriptor(b), TextGriddingKey, NoneId, OrntKey, HrznId, float64);
  }

  /** The text items with their keys, identifiers and values left open. */
  lemma TextShapeRaw(k0: string, k1: string, k2: string, k3: string, k4: string, k5: string,
                     s: string, data: Bytes, d: Descriptor, t4: string, e4: string, t5: string, e5: string,
                     float64: real -> Bytes8)
    requires t4 != "" && e4 != "" && t5 != "" && e5 != ""
    ensures RawItemsOf([Item(k0, TextValue(s)), Item(k1, RawData(data)), Item(k2, Object(d)),
                        Item(k3, Object(d)), Item(k4, Enumerated(t4, e4)), Item(k5, Enumerated(t5, e5))], float64)
      == [TextRawItem(k0, s), DataRawItem(k1, data), ObjectRawItem(k2, RawBodyOf(d, float64)),
          ObjectRawItem(k3, RawBodyOf(d, float64)), EnumRawItem(k4, t4, e4), EnumRawItem(k5, t5, e5)]
  {
    var items := [Item(k0, TextValue(s)), Item(k1, RawData(data)), Item(k2, Object(d)),
                  Item(k3, Object(d)), Item(k4, Enumerated(t4, e4)), Item(k5, Enumerated(t5, e5))];
    RawItemsAt(items, float64);
    TextItemRaw(k0, s, float64);
    DataItemRaw(k1, data, float64);
    ObjectItemRaw(k2, d, float64);
    ObjectItemRaw(k3, d, float64);
    EnumItemRaw(k4, t4, e4, float64);
    EnumItemRaw(k5, t5, e5, float64);
    SeqOfSix(RawItemsOf(items, float64), TextRawItem(k0, s), DataRawItem(k1, data),
             ObjectRawItem(k2, RawBodyOf(d, float64)), ObjectRawItem(k3, RawBodyOf(d, float64)),
             EnumRawItem(k4, t4, e4), EnumRawItem(k5, t5, e5));
  }

  /** What a reader recovers from the warp descriptor: class 'warp' and five
      items, no warp style, three zero doubles, horizontal rotation. */
  function WarpRaw(float64: real -> Bytes8): RawDescriptor
  {
    RawDescriptor([], Utf8(WarpClass), [
      EnumRawItem(WarpStyleKey, WarpStyleKey, WarpNoneId),
      DoubRawItem(WarpValueKey, float64(0.0)),
      DoubRawItem(WarpPerspectiveKey, float64(0.0)),
      DoubRawItem(WarpPerspectiveOtherKey, float64(0.0)),
      EnumRawItem(WarpRotateKey, WarpRotateKey, WarpRotateHorizontalId)])
  }

  /** The warp descriptor reads back as WarpRaw. */
  lemma WarpReadBack(float64: real -> Bytes8, rest: Bytes)
    ensures DecodeBody(BodyBytes(WarpDescriptor(), float64) + rest) == Some((WarpRaw(float64), rest))
  {
    WarpWellFormed();
    BodyRoundTrip(WarpDescriptor(), float64, rest);
    WarpRawOf(float64);
  }

  lemma WarpRawOf(float64: real -> Bytes8)
    ensures RawBodyOf(WarpDescriptor(), float64) == WarpRaw(float64)
  {
    WarpShapeRaw(WarpStyleKey, WarpValueKey, WarpPerspectiveKey, WarpPerspectiveOtherKey, WarpRotateKey,
                 WarpStyleKey, WarpNoneId, WarpRotateKey, WarpRotateHorizontalId, float64);
  }

  /** The warp items with their keys and identifiers left open. */
  lemma WarpShapeRaw(k0: string, k1: string, k2: string, k3: string, k4: string,
                     t0: string, e0: string, t4: string, e4: string, float64: real -> Bytes8)
    requires t0 != "" && e0 != "" && t4 != "" && e4 != ""
    ensures RawItemsOf([Item(k0, Enumerated(t0, e0)), Item(k1, Doub(0.0)), Item(k2, Doub(0.0)),
                        Item(k3, Doub(0.0)), Item(k4, Enumerated(t4, e4))], float64)
      == [EnumRawItem(k0, t0, e0), DoubRawItem(k1, float64(0.0)), DoubRawItem(k2, float64(0.0)),
          DoubRawItem(k3, float64(0.0)), EnumRawItem(k4, t4, e4)]
  {
    var items := [Item(k0, Enumerated(t0, e0)), Item(k1, Doub(0.0)), Item(k2, Doub(0.0)),
                  Item(k3, Doub(0.0)), Item(k4, Enumerated(t4, e4))];
    RawItemsAt(items, float64);
    EnumItemRaw(k0, t0, e0, float64);
    DoubItemRaw(k1, 0.0, float64);
    DoubItemRaw(k2, 0.0, float64);
    DoubItemRaw(k3, 0.0, float64);
    EnumItemRaw(k4, t4, e4, float64);
    SeqOfFive(RawItemsOf(items, float64), EnumRawItem(k0, t0, e0), DoubRawItem(k1, float64(0.0)),
              DoubRawItem(k2, float64(0.0)), DoubRawItem(k3, float64(0.0)), EnumRawItem(k4, t4, e4));
  }

  lemma SeqOfFive(s: seq<RawItem>, a: RawItem, b: RawItem, c: RawItem, d: RawItem, e: RawItem)
    requires |s| == 5 && s[0] == a && s[1] == b && s[2] == c && s[3] == d && s[4] == e
    ensures s == [a, b, c, d, e]
  {
  }

  lemma SeqOfSix(s: seq<RawItem>, a: RawItem, b: RawItem, c: RawItem, d: RawItem, e: RawItem, f: RawItem)
    requires |s| == 6 && s[0] == a && s[1] == b && s[2] == c && s[3] == d && s[4] == e && s[5] == f
    ensures s == [a, b, c, d, e, f]
  {
  }

  /** Raw items as a reader sees them: the key's UTF-8 bytes, the tag, the
      value. */
  function TextRawItem(key: string, s: string): RawItem
  {
    RawItem(Utf8(key), TextTag, RText(Utf16(s)))
  }

  function DataRawItem(key: string, data: Bytes): RawItem
  {
    RawItem(Utf8(key), TdtaTag, RData(data))
  }

  function ObjectRawItem(key: string, d: RawDescriptor): RawItem
  {
    RawItem(Utf8(key), ObjcTag, RObject(d))
  }

  function DoubRawItem(key: string, bits: Bytes8): RawItem
  {
    RawItem(Utf8(key), DoubTag, RDoub(bits))
  }

  function EnumRawItem(key: string, t: string, e: string): RawItem
  {
    RawItem(Utf8(key), EnumTag, REnum(Utf8(t), Utf8(e)))
  }

  lemma TextItemRaw(key: string, s: string, float64: real -> Bytes8)
    ensures RawItemOf(Item(key, TextValue(s)), float64) == TextRawItem(key, s)
  {
    TypeTagBytes(TextValue(s));
  }

  lemma DataItemRaw(key: string, data: Bytes, float64: real -> Bytes8)
    ensures RawItemOf(Item(key, RawData(data)), float64) == DataRawItem(key, data)
  {
    TypeTagBytes(RawData(data));
  }

  lemma ObjectItemRaw(key: string, d: Descriptor, float64: real -> Bytes8)
    ensures RawItemOf(Item(key, Object(d)), float64) == ObjectRawItem(key, RawBodyOf(d, float64))
  {
    TypeTagBytes(Object(d));
  }

  lemma DoubItemRaw(key: string, x: real, float64: real -> Bytes8)
    ensures RawItemOf(Item(key, Doub(x)), float64) == DoubRawItem(key, float64(x))
  {
    TypeTagBytes(Doub(x));
  }

  lemma EnumItemRaw(key: string, t: string, e: string, float64: real -> Bytes8)
    requires t != "" && e != ""
    ensures RawItemOf(Item(key, Enumerated(t, e)), float64) == EnumRawItem(key, t, e)
  {
    TypeTagBytes(Enumerated(t, e));
  }

  /** The payload's fields: version 1 at 0, text version 1 at 2, the six
      transform doubles from 4, the two descriptors from 52, and the four
      bounds words at the end, each reading back as ToInt32 of its edge. */
  lemma TypeToolPayloadLayout(desc: Bytes, warp: Bytes, b: Rect, float64: real -> Bytes8)
    ensures var p := TypeToolPayload(desc, warp, b, float64); var k := 52 + |desc| + |warp|;
      && |p| == k + 16
      && U16At(p, 0) == 1 && U16At(p, 2) == 1
      && p[4..52] == Float64s(Transform(b), float64)
      && p[52..52 + |desc|] == desc
      && p[52 + |desc|..k] == warp
      && I32At(p, k) == ToInt32(b.left) && I32At(p, k + 4) == ToInt32(b.top)
      && I32At(p, k + 8) == ToInt32(b.right) && I32At(p, k + 12) == ToInt32(b.bottom)
  {
    var p := TypeToolPayload(desc, warp, b, float64);
    var k := 52 + |desc| + |warp|;
    PayloadSlices(BE16(1) + BE16(1), Float64s(Transform(b), float64), desc, warp, BoundsWords(b));
    VersionFields(p);
    BoundsWordsAt(p, k, b);
  }

  lemma VersionFields(p: Bytes)
    requires |p| >= 4 && p[..4] == BE16(1) + BE16(1)
    ensures U16At(p, 0) == 1 && U16At(p, 2) == 1
  {
    assert p[0..2] == BE16(1) && p[2..4] == BE16(1);
    Uint16FieldAt(p, 0, 1);
    Uint16FieldAt(p, 2, 1);
  }

  lemma BoundsWordsAt(p: Bytes, k: nat, b: Rect)
    requires k + 16 == |p| && p[k..] == BoundsWords(b)
    ensures I32At(p, k) == ToInt32(b.left) && I32At(p, k + 4) == ToInt32(b.top)
    ensures I32At(p, k + 8) == ToInt32(b.right) && I32At(p, k + 12) == ToInt32(b.bottom)
  {
    var w := BoundsWords(b);
    assert p[k..k + 4] == w[0..4] && p[k + 4..k + 8] == w[4..8];
    assert p[k + 8..k + 12] == w[8..12] && p[k + 12..k + 16] == w[12..16];
    BoundsWordsFields(b);
    Int32FieldAt(p, k, b.left);
    Int32FieldAt(p, k + 4, b.top);
    Int32FieldAt(p, k + 8, b.right);
    Int32FieldAt(p, k + 12, b.bottom);
  }

  lemma PayloadSlices(h: Bytes, t: Bytes, desc: Bytes, warp: Bytes, w: Bytes)
    requires |h| == 4 && |t| == 48 && |w| == 16
    ensures var p := h + t + desc + warp + w; var k := 52 + |desc| + |warp|;
      && |p| == k + 16
      && p[..4] == h && p[4..52] == t && p[52..52 + |desc|] == desc
      && p[52 + |desc|..k] == warp && p[k..] == w
  {
  }

  lemma BoundsWordsFields(b: Rect)
    ensures var w := BoundsWords(b);
      && w[0..4] == BE32(b.left) && w[4..8] == BE32(b.top)
      && w[8..12] == BE32(b.right) && w[12..16] == BE32(b.bottom)
  {
  }

  /** Each transform value occupies its own eight bytes, in order. */
  lemma {:induction false} Float64sAt(values: seq<real>, float64: real -> Bytes8, i: nat)
    requires i < |values|
    ensures Float64s(values, float64)[8 * i..8 * i + 8] == float64(values[i])
  {
    var n := |values|;
    var init := Float64s(values[..n - 1], float64);
    if i == n - 1 {
      assert Float64s(values, float64) == init + float64(values[n - 1]);
    } else {
      Float64sAt(values[..n - 1], float64, i);
      assert Float64s(values, float64)[8 * i..8 * i + 8] == init[8 * i..8 * i + 8];
    }
  }

  /** The EngineData script of a type-tool block reads back its text: the
      text line holds exactly the CR-normalised text. */
  lemma EngineTextReadBack(text: string, style: TextStyle, fixed2: real -> string)
    ensures TextEntry(EngineData(style, NormalizeToCr(text), fixed2)) == Some(NormalizeToCr(text))
  {
    var normalized := NormalizeToCr(text);
    TextEntryRoundTrip(style, normalized, fixed2);
    NormalizeToCrProps(text);
    LfToCrNoLf(normalized);
  }

  /** The block reads back as the 'TySh' key and the payload, provided the
      payload length fits the block's 32-bit length field. */
  lemma TypeToolBlockReadBack(desc: Bytes, warp: Bytes, b: Rect, float64: real -> Bytes8, rest: Bytes)
    requires 68 + |desc| + |warp| < 0x1_0000_0000
    ensures ReadInfoBlock(TypeToolBlock(desc, warp, b, float64) + rest)
      == Some((TyShKey, TypeToolPayload(desc, warp, b, float64), rest))
  {
    TypeToolPayloadLayout(desc, warp, b, float64);
    InfoBlockRoundTrip(TyShKey, TypeToolPayload(desc, warp, b, float64), rest);
  }

  /** Inside the payload, after the transform, a reader finds '8BIM' and the
      first descriptor, then '8BIM' and the second, then the bounds words.
      With TextDescriptorReadBack and WarpReadBack this gives TextRaw and
      WarpRaw for the descriptors of a text layer. */
  lemma TypeToolDescriptorsReadBack(d: Descriptor, w: Descriptor, b: Rect, float64: real -> Bytes8)
    requires WellFormedBody(d) && WellFormedBody(w)
    ensures var warp := DescriptorBytes(w, true, float64);
      var p := TypeToolPayload(DescriptorBytes(d, true, float64), warp, b, float64);
      && |p| >= 56 && p[52..56] == Signature
      && DecodeBody(p[56..]) == Some((RawBodyOf(d, float64), warp + BoundsWords(b)))
      && warp[..4] == Signature
      && DecodeBody(warp[4..] + BoundsWords(b)) == Some((RawBodyOf(w, float64), BoundsWords(b)))
  {
    var warp := DescriptorBytes(w, true, float64);
    var words := BoundsWords(b);
    PayloadTail(BE16(1) + BE16(1) + Float64s(Transform(b), float64), BodyBytes(d, float64), warp, words);
    BodyRoundTrip(d, float64, warp + words);
    BodyRoundTrip(w, float64, words);
    SignatureSplit(BodyBytes(w, float64));
  }

  lemma SignatureSplit(body: Bytes)
    ensures (Signature + body)[..4] == Signature && (Signature + body)[4..] == body
  {
  }

  lemma PayloadTail(head: Bytes, body: Bytes, warp: Bytes, words: Bytes)
    requires |head| == 52
    ensures var p := head + (Signature + body) + warp + words;
      p[52..56] == Signature && p[56..] == body + (warp + words)
  {
  }

  // ---------------------------------------------------------------------
  // The builders as written
  // ---------------------------------------------------------------------

  /** The transform.forEach loop: one setFloat64 per value, eight bytes
      apart. */
  method WriteFloat64s(buf: array<byte>, offset: nat, values: seq<real>, float64: real -> Bytes8)
    requires offset + 8 * |values| <= buf.Length
    modifies buf
    ensures buf[..offset + 8 * |values|] == old(buf[..offset]) + Float64s(values, float64)
    ensures buf[offset + 8 * |values|..] == old(buf[offset + 8 * |values|..])
  {
    var i := 0;
    while i < |values|
      invariant 0 <= i <= |values|
      invariant buf[..offset + 8 * i] == old(buf[..offset]) + Float64s(values[..i], float64)
      invariant buf[offset + 8 * i..] == old(buf[offset + 8 * i..])
    {
      WriteBytes(buf, offset + 8 * i, float64(values[i]));
      Float64sStep(values, i, float64);
      i := i + 1;
    }
    assert values[..|values|] == values;
  }

  lemma Float64sStep(values: seq<real>, i: nat, float64: real -> Bytes8)
    requires i < |values|
    ensures Float64s(values[..i + 1], float64) == Float64s(values[..i], float64) + float64(values[i])
    ensures 8 * i + 8 == 8 * (i + 1)
  {
    assert values[..i + 1][..i] == values[..i];
  }

  /** The payload buffer of buildTypeToolInfo, filled field by field. */
  method BuildTypeToolPayload(desc: Bytes, warp: Bytes, b: Rect, float64: real -> Bytes8) returns (r: Bytes)
    ensures r == TypeToolPayload(desc, warp, b, float64)
  {
    var buffer := new byte[2 + 2 + 6 * 8 + |desc| + |warp| + 16](_ => 0);
    WriteBE(buffer, 0, 1, 2);
    WriteBE(buffer, 2, 1, 2);
    assert buffer[..4] == BE16(1) + BE16(1);
    WriteFloat64s(buffer, 4, Transform(b), float64);
    ghost var head := BE16(1) + BE16(1) + Float64s(Transform(b), float64);
    assert buffer[..52] == head;
    WriteBytes(buffer, 52, desc);
    WriteBytes(buffer, 52 + |desc|, warp);
    var k := 52 + |desc| + |warp|;
    assert buffer[..k] == head + desc + warp;
    WriteBoundsWords(buffer, k, b);
    assert buffer[..] == buffer[..k + 16] == head + desc + warp + BoundsWords(b);
    r := buffer[..];
  }

  /** The four setInt32 calls at the end of the payload. */
  method WriteBoundsWords(buf: array<byte>, offset: nat, b: Rect)
    requires offset + 16 <= buf.Length
    modifies buf
    ensures buf[..offset + 16] == old(buf[..offset]) + BoundsWords(b)
  {
    WriteBE(buf, offset, b.left, 4);
    WriteBE(buf, offset + 4, b.top, 4);
    WriteBE(buf, offset + 8, b.right, 4);
    WriteBE(buf, offset + 12, b.bottom, 4);
  }

  method BuildTypeToolInfo(text: string, style: TextStyle, b: Rect,
                           float64: real -> Bytes8, fixed2: real -> string) returns (r: Option<Bytes>)
    ensures r == TypeToolInfo(text, style, b, float64, fixed2)
  {
    if text == "" {
      return None;
    }
    var normalized := NormalizeToCr(text);
    var engineBytes := Utf8(EngineData(style, normalized, fixed2));
    var desc := EncodeDescriptor(TextDescriptor(normalized, engineBytes, b), true, float64);
    var warp := EncodeDescriptor(WarpDescriptor(), true, float64);
    var payload := BuildTypeToolPayload(desc, warp, b, float64);
    var block := BuildAdditionalLayerInfoBlock(TyShKey, payload);
    r := Some(block);
  }

  // ---------------------------------------------------------------------
  // buildTextLayerInfo
  // ---------------------------------------------------------------------

  /** The additional information of a text layer: the 'luni' name block,
      then the type-tool block when there is text. */
  function TextLayerInfo(name: string, text: string, style: TextStyle, b: Rect,
                         float64: real -> Bytes8, fixed2: real -> string): seq<Bytes>
  {
    NameThenOptional(UnicodeNameBlock(name), TypeToolInfo(text, style, b, float64, fixed2))
  }

  function NameThenOptional(nameBlock: Bytes, typeTool: Option<Bytes>): (r: seq<Bytes>)
    ensures |r| == (if typeTool.Some? then 2 else 1) && r[0] == nameBlock
    ensures typeTool.Some? ==> r[1] == typeTool.value
  {
    [nameBlock] + (if typeTool.Some? then [typeTool.value] else [])
  }

  /** The type-tool block is left out exactly when the text is empty. */
  lemma TypeToolInfoPresent(text: string, style: TextStyle, b: Rect,
                            float64: real -> Bytes8, fixed2: real -> string)
    ensures TypeToolInfo(text, style, b, float64, fixed2).Some? <==> text != ""
  {
  }

  /** A text layer with text carries exactly two blocks, the name first;
      without text only the name block is left. */
  lemma TextLayerInfoBlocks(name: string, text: string, style: TextStyle, b: Rect,
                            float64: real -> Bytes8, fixed2: real -> string)
    ensures var info := TextLayerInfo(name, text, style, b, float64, fixed2);
      && |info| == (if text == "" then 1 else 2)
      && info[0] == UnicodeNameBlock(name)
      && (text != "" ==> info[1] == TypeToolInfo(text, style, b, float64, fixed2).value)
  {
    TypeToolInfoPresent(text, style, b, float64, fixed2);
  }

  method BuildTextLayerInfo(name: string, text: string, style: TextStyle, b: Rect,
                            float64: real -> Bytes8, fixed2: real -> string) returns (blocks: seq<Bytes>)
    ensures blocks == TextLayerInfo(name, text, style, b, float64, fixed2)
  {
    var nameBlock := BuildUnicodeLayerNameInfo(name);
    var typeTool := BuildTypeToolInfo(text, style, b, float64, fixed2);
    blocks := PushIfPresent(nameBlock, typeTool);
  }

  /** `[nameBlock]`, then the type-tool block pushed when there is one. */
  method PushIfPresent(nameBlock: Bytes, typeTool: Option<Bytes>) returns (blocks: seq<Bytes>)
    ensures blocks == NameThenOptional(nameBlock, typeTool)
  {
    blocks := [nameBlock];
    if typeTool.Some? {
      blocks := blocks + [typeTool.value];
    }
  }
}
