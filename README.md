# Comic bubble editor: PSD export, text display and layer stack

This project models the core of a browser-based comic editor and proves
properties of that model in Dafny:

- **The Photoshop (PSD) exporter** (`src/main.js`). Writes the 26-byte file
  header. Assembles the layer and mask section from raster layer records:
  the page image, the panel images, the panel frames, the bubbles, and one
  text layer per bubble that shows text. Each text layer carries a Unicode
  name block and a type-tool block. The type-tool block holds a text
  descriptor with the engine data and a warp descriptor. Last comes the
  planar RGBA composite. Every byte writer is modelled as a method over an
  `array<byte>` with a running offset. Each is proved equal to a
  specification function, and those functions are proved to read back:
  big-endian fields, Unicode strings, class ids, descriptors, info blocks,
  Pascal strings, records, the layer information length, the composite
  offset and the planar pixels.
- **Bubble text display** (`src/main.js`):
  - automatic wrapping (`applyAutoWrap`), proved to change only line feeds
    (every other character is kept, in order) and to respect the per-line
    limit;
  - the caret mapping between display and raw positions, proved to be a
    Galois-style round trip;
  - the undo history.
- **The editor's layer stack** (`app.js`). The ordered `{type, id}` list is
  kept in step with the panels and bubbles. Covered: insertion at a clamped
  index, filter deletion, bounded moves, splitting a panel into two,
  hit-testing from the top, and z-index assignment.

Modules:

| module | content |
|---|---|
| `Bytes` | bytes, big-endian fields, DataView setters, concatenation |
| `Text` | UTF-16 and UTF-8, Unicode strings, Pascal strings, PostScript escaping |
| `Descriptors` | class ids and descriptor encoding and reading |
| `InfoBlocks` | additional layer information blocks |
| `TypeTool` | engine data, type-tool payload |
| `Raster` | channels, raster layer records, composite image |
| `LayerPlan` | which layers are exported and in what order |
| `Document` | header, layer info section, whole file |
| `AutoWrap` | wrapping |
| `Caret` | caret mapping |
| `History` | undo history |
| `LayerStack` | app.js layer stack |

## Model

| member | source | states |
|---|---|---|
| Bytes.DecodeEncode | src/main.js:2591-2605 | a big-endian field of width n stores v modulo 256^n, so it reads back as v mod 256^n (the DataView setters' wrap-around) |
| Bytes.DecodeEncodeFits | src/main.js:2591-2605 | a value that fits its field reads back unchanged |
| Bytes.Uint16FieldAt | src/main.js:2594-2603 | a setUint16 field anywhere in a buffer reads back as the value modulo 2^16 |
| Bytes.Uint32FieldAt | src/main.js:2862-2874 | a setUint32 field anywhere in a buffer reads back as the value modulo 2^32 |
| Bytes.Int32FieldAt | src/main.js:2798-2805 | a setInt32 field reads back, as a signed word, as the ToInt32 wrap-around of any integer |
| Bytes.Int16FieldAt | src/main.js:3008-3015 | a setInt16 field of a value in the signed 16-bit range reads back as that value |
| Bytes.ToInt32 | src/main.js:2797-2804 | ToInt32 is the unique signed 32-bit integer congruent to v modulo 2^32 |
| Bytes.SignedRoundTrip16 | src/main.js:3125-3129 | writeInt16's mapping of a negative value to 0xffff + value + 1 gives a field that reads back, signed, as the value |
| Bytes.WriteUint32 | src/main.js:3118-3123 | the four shifted-and-masked bytes are exactly the big-endian 32-bit field of the value; the rest of the buffer is unchanged |
| Bytes.WriteInt16 | src/main.js:3125-3129 | the two bytes written are the big-endian 16-bit field of the value; the rest of the buffer is unchanged |
| Bytes.WriteBE | src/main.js:2591-2605 | a DataView setter of width 2 or 4 writes the big-endian field and nothing else |
| Bytes.WriteBytes | src/main.js:2573-2588 | Uint8Array.set copies the data at the offset and leaves the bytes after it unchanged |
| Bytes.ConcatUint8Arrays | src/main.js:3106-3116 | the result is the parts laid end to end (empty for no parts) |
| Bytes.FlattenLayout | src/main.js:3106-3116 | part k of a concatenation is found at the summed length of the parts before it |
| Bytes.FlattenAppend | src/main.js:3106-3116 | concatenating two lists of parts is concatenating their concatenations |
| Text.Utf16Bmp | src/main.js:2972-2981 | text in the Basic Multilingual Plane has one UTF-16 code unit (charCodeAt) per character |
| Text.Utf8Ascii | src/main.js:2962-2970 | ASCII text is its own UTF-8 encoding (TextEncoder), one byte per character |
| Text.Utf8LengthAscii | src/main.js:2945-2960 | only ASCII text has as many UTF-8 bytes as characters |
| Text.ParseNatToString | src/main.js:2830-2840 | the decimal digits written for the run length read back as the number |
| Text.UnicodeStringLayout | src/main.js:2972-2981 | the u32 count is the UTF-16 length, and code unit i sits big-endian at 4 + 2i |
| Text.UnicodeStringRoundTrip | src/main.js:2972-2981 | reading a count and that many units after the string gives back its UTF-16 units and leaves what follows |
| Text.EncodeUnicodeStringWithLength | src/main.js:2972-2981 | the buffer written by the loop is the Unicode string encoding |
| Text.FixedFieldAscii | src/main.js:2962-2970 | a four-character ASCII tag fills its four-byte field exactly with its character codes |
| Text.StringToBytes | src/main.js:2962-2970 | the loop copies the UTF-8 bytes, zero-filled or cut to the field length |
| Text.PascalLayout | src/main.js:3063-3072 | the length byte is min(255, UTF-8 length), then the bytes, then zeros, padded to a multiple of 4 |
| Text.PascalTruncates | src/main.js:3063-3072 | a name of 255 or more UTF-8 bytes is cut to 255 and the buffer is 256 bytes long |
| Text.PascalRoundTrip | src/main.js:3063-3072 | reading the length byte and skipping the padding gives the (truncated) UTF-8 name and what follows |
| Text.PascalString | src/main.js:3063-3072 | the buffer built is the Pascal string encoding |
| Text.NormalizeToCrProps | src/main.js:2762 | after replacing each CR LF or LF by CR no line feed is left, and text without line feeds is unchanged |
| Text.EscapePsStringCharwise | src/main.js:2853-2860 | the five chained replacements equal escaping character by character (no replacement re-escapes an earlier one) |
| Text.EscapeRoundTrip | src/main.js:2853-2860 | the escaped string is well formed and unescapes to the text with line feeds turned into carriage returns |
| Text.SanitizeProps | src/main.js:2848-2851 | the PostScript name has no whitespace, keeps a name without whitespace, and is 'Regular' for an empty name |
| Descriptors.ClassIdShortForm | src/main.js:2945-2960 | the 8-byte zero-length form is used exactly for four-character ASCII ids, and then holds those four bytes |
| Descriptors.ClassIdRoundTrip | src/main.js:2945-2960 | a class id reads back as its UTF-8 bytes, in both forms, with the rest left over |
| Descriptors.EncodeClassId | src/main.js:2945-2960 | the buffer written is the class-id encoding |
| Descriptors.DataBytes | src/main.js:2921-2932 | raw data is a u32 length, the data, and one zero byte when the length is odd, so the result is even |
| Descriptors.DescriptorBytes | src/main.js:2876-2896 | the outermost descriptor starts with '8BIM' then its body; a nested object has no signature |
| Descriptors.TypeTagBytes | src/main.js:2885 | stringToBytes(type, 4) of each type used gives its four tag bytes |
| Descriptors.TextRoundTrip | src/main.js:2900-2901 | a 'TEXT' value reads back as its UTF-16 units |
| Descriptors.DoubRoundTrip | src/main.js:2902-2906 | a 'doub' value reads back as its eight float bytes |
| Descriptors.LongRoundTrip | src/main.js:2907-2911 | a 'long' value reads back as the ToInt32 of the number |
| Descriptors.BoolRoundTrip | src/main.js:2912-2913 | a 'bool' value reads back as its flag byte |
| Descriptors.UnitFloatRoundTrip | src/main.js:2914-2920 | a 'UntF' value reads back as its unit tag and float bytes |
| Descriptors.DataRoundTrip | src/main.js:2921-2932 | a 'tdta' value reads back as the unpadded data |
| Descriptors.ObjectRoundTrip | src/main.js:2933-2934 | an 'Objc' value reads back as the raw body of the nested descriptor |
| Descriptors.EnumRoundTrip | src/main.js:2935-2939 | an 'enum' value reads back as its type and enum ids, 'null' standing in for a missing one |
| Descriptors.OtherRoundTrip | src/main.js:2940-2941 | an unknown type writes no bytes and reads back as nothing |
| Descriptors.ValueRoundTrip | src/main.js:2898-2943 | every well-formed value reads back through the reader of its own tag |
| Descriptors.ItemsRoundTrip | src/main.js:2884-2888 | the items read back in order, each as its key, tag and value |
| Descriptors.BodyRoundTrip | src/main.js:2876-2890 | a body reads back as its name, class id ('null' when empty), count and items |
| Descriptors.DescriptorRoundTrip | src/main.js:2876-2896 | the outermost descriptor is '8BIM' followed by a body that reads back |
| Descriptors.EncodeDescriptorValue | src/main.js:2898-2943 | each branch of the switch writes the value encoding of its type |
| Descriptors.EncodeDescriptor | src/main.js:2876-2896 | the parts pushed and concatenated, with or without the signature, are the descriptor encoding |
| InfoBlocks.InfoBlockSize | src/main.js:2862-2874 | a block is 12 bytes plus the data padded to even length, so its length is even |
| InfoBlocks.InfoBlockFields | src/main.js:2862-2874 | '8BIM', then the key, then the unpadded data length, then the data, then a zero when the length is odd |
| InfoBlocks.InfoBlockRoundTrip | src/main.js:2862-2874 | a block reads back as its key and data, skipping the padding, with the rest left over |
| InfoBlocks.BuildAdditionalLayerInfoBlock | src/main.js:2862-2874 | the buffer written is the info block encoding |
| InfoBlocks.UnicodeNameRoundTrip | src/main.js:2754-2757 | the 'luni' block reads back as the Unicode string of the name, which reads back as its UTF-16 units |
| InfoBlocks.BuildUnicodeLayerNameInfo | src/main.js:2754-2757 | the block built is the 'luni' block of the name |
| TypeTool.RunLength | src/main.js:2830 | the run length is at least 1 and covers the whole text, and equals its UTF-16 length when non-empty |
| TypeTool.TextEntryRoundTrip | src/main.js:2822-2846 | the '/Text (...)' line of the engine data unescapes to the content with line feeds as carriage returns |
| TypeTool.EngineTextReadBack | src/main.js:2759-2766 | the engine data of the normalized text gives back the normalized text |
| TypeTool.BoundsReadBack | src/main.js:2809-2820 | the 'Rctn' bounds descriptor reads back as Top, Left, Btom and Rght pixel unit floats, in that order |
| TypeTool.TextDescriptorReadBack | src/main.js:2766-2773 | the 'TxLr' descriptor reads back as the text, the engine bytes, the bounds twice, and the two enums |
| TypeTool.WarpReadBack | src/main.js:2774-2780 | the 'warp' descriptor reads back as the warp style, three zero doubles and the rotation enum |
| TypeTool.TypeToolPayloadLayout | src/main.js:2781-2805 | the payload's version fields, transform, descriptors and bounds words sit at their offsets |
| TypeTool.VersionFields | src/main.js:2785-2788 | the payload starts with the two version fields, both 1 |
| TypeTool.Float64sAt | src/main.js:2789-2793 | each transform value occupies its own eight bytes, in order |
| TypeTool.BoundsWordsAt | src/main.js:2798-2805 | the last sixteen bytes read back, signed, as left, top, right and bottom |
| TypeTool.TypeToolBlockReadBack | src/main.js:2806 | the 'TySh' block reads back as the payload |
| TypeTool.TypeToolDescriptorsReadBack | src/main.js:2766-2806 | both descriptors of the block read back from their offsets in the payload |
| TypeTool.TypeToolInfoPresent | src/main.js:2759-2761 | the type-tool block is omitted exactly when the display text is empty |
| TypeTool.WriteFloat64s | src/main.js:2789-2793 | the forEach loop writes the consecutive float fields and nothing else |
| TypeTool.WriteBoundsWords | src/main.js:2798-2805 | the four setInt32 calls write the bounds words |
| TypeTool.BuildTypeToolPayload | src/main.js:2781-2805 | the payload buffer written field by field is the payload |
| TypeTool.BuildTypeToolInfo | src/main.js:2759-2807 | the method returns null for empty text and otherwise the 'TySh' block of the payload |
| TypeTool.TextLayerInfoBlocks | src/main.js:2745-2752 | the info is the name block, then the type-tool block exactly when there is text |
| TypeTool.BuildTextLayerInfo | src/main.js:2745-2752 | the blocks built are the text layer's information |
| Raster.Channel | src/main.js:3048-3061 | sample c of pixel i is byte 4i + c of the image data |
| Raster.SplitInterleave | src/main.js:3048-3061 | splitting the pixels into planes and interleaving them back gives the pixels |
| Raster.InterleaveSplit | src/main.js:3048-3061 | the planes of interleaved planes are those planes |
| Raster.CanvasToChannels | src/main.js:3048-3061 | the four arrays are the red, green, blue and alpha planes |
| Raster.SplitChannels | src/main.js:3053-3059 | the loop fills each channel array with its plane |
| Raster.EntryTableAt | src/main.js:3010-3015 | row k of the channel table sits at 6k: the channel id (int16) and the data length + 2 (uint32) |
| Raster.RasterRecordLayout | src/main.js:2983-3035 | the record's bounds, channel count, table, blend signature and mode, opacity, extra length, empty mask and blending ranges, and Pascal name are at their offsets; the name reads back |
| Raster.RasterLayerChannels | src/main.js:2986-2991 | the layer has four channels with ids 0, 1, 2 and -1, each 2 + w*h bytes |
| Raster.RasterLayerPixels | src/main.js:3037-3045 | channel data k is two zero bytes (raw compression) then plane k |
| Raster.BuildChannelData | src/main.js:3037-3043 | each channel's data is written as the zero header and the plane |
| Raster.BuildRasterRecord | src/main.js:2996-3035 | the record buffer written field by field is the record |
| Raster.WriteRecordHead | src/main.js:3000-3015 | the bounds, the channel count and the channel table written from offset 0 |
| Raster.BuildRasterLayer | src/main.js:2983-3046 | the layer built from the canvas is the raster layer of its name, pixels and blocks |
| Raster.CompositeRoundTrip | src/main.js:3090-3104 | the composite is the zero compression word and four planes that interleave back to the pixels |
| Raster.PlanarFromPixels | src/main.js:3095-3102 | the loop writes the four planes one after another |
| Raster.EncodeCompositeImage | src/main.js:3090-3104 | the bytes built are the composite image encoding |
| LayerPlan.TextBox | src/main.js:1825-1835 | the text box is inset by max(20, padding) and is at least 20 wide and 20 high |
| LayerPlan.TextRectPixels | src/main.js:2733-2738 | the pixel bounds are floor/ceil of the text box, clamped to the canvas, and ordered left <= right, top <= bottom |
| LayerPlan.ClampMonotone | src/main.js:2353-2355 | clamping to fixed bounds preserves order |
| LayerPlan.TextSources | src/main.js:2648-2651 | only bubbles with display text get a text layer, in bubble order |
| LayerPlan.PlanOrdered | src/main.js:2637-2653 | the layers come in order: image, panel images, panel frames, bubbles, then texts |
| LayerPlan.PlanFixedMembers | src/main.js:2637-2653 | the image layer exists exactly with a page image, both panel layers exactly with panels, the bubble layer exactly with bubbles |
| LayerPlan.PlanTextMembers | src/main.js:2714-2716 | a bubble has a text layer exactly when its display text is non-empty |
| LayerPlan.LayerNameReadBack | src/main.js:2983-3035 | each exported layer's record carries its name, which reads back |
| LayerPlan.TextLayerBlocks | src/main.js:2739-2742 | a text layer's blocks are its 'luni' name block and its 'TySh' block |
| LayerPlan.BuildImageLayer | src/main.js:2654-2664 | null without a page image, otherwise the image layer |
| LayerPlan.BuildPanelImageLayer | src/main.js:2676-2685 | null without a page frame and panel tree, otherwise the panel-image layer |
| LayerPlan.BuildPanelFrameLayer | src/main.js:2687-2712 | null without a page frame and panel tree, otherwise the panel-frame layer |
| LayerPlan.BuildBubbleLayer | src/main.js:2666-2674 | null without bubbles, otherwise the bubble layer |
| LayerPlan.BuildTextLayer | src/main.js:2714-2743 | null when the display text is empty, otherwise the text layer named after the bubble id, with its blocks |
| LayerPlan.DrawTextLayer | src/main.js:2739-2742 | the text canvas becomes a raster layer with the text layer's blocks |
| LayerPlan.PushPresent | src/main.js:2640-2647 | a builder's result is pushed exactly when present, keeping the stack the drawing of the plan so far |
| LayerPlan.BuildImageLayers | src/main.js:2639-2642 | the first two builders give the drawings of the image and panel-image sources |
| LayerPlan.BuildFixedLayers | src/main.js:2639-2647 | the four page-wide builders give the drawings of the page-wide sources, in order |
| LayerPlan.PushTextLayer | src/main.js:2648-2651 | bubble i's text layer is pushed exactly when it shows text |
| LayerPlan.BuildLayers | src/main.js:2637-2653 | the layers built are the drawings of the layer plan, in plan order |
| Document.PsdHeaderStart | src/main.js:2591-2605 | the header starts with '8BPS', version 1 and six zero bytes |
| Document.PsdHeaderImage | src/main.js:2597-2602 | the header stores 4 channels, the height, the width, depth 8 and RGB mode 3 |
| Document.SignatureWordBytes | src/main.js:2594 | the word 0x38425053 spells '8BPS' |
| Document.CreatePsdHeader | src/main.js:2591-2605 | the 26 bytes written are the header |
| Document.Records | src/main.js:2609 | the records are the layers' records, in order |
| Document.Padding | src/main.js:2612-2615 | a zero byte is added exactly when the layer information would have odd length |
| Document.LayerInfoLayout | src/main.js:2607-2635 | the section's total and layer-info lengths, the layer count, the records, the channel data, the even padding and the closing zero word are at their offsets |
| Document.LayerRecordAt | src/main.js:2607-2635 | each layer's record is found at its offset in the section |
| Document.RoundUpToEven | src/main.js:2612-2615 | the layer information length is rounded up to even |
| Document.WriteSectionHead | src/main.js:2618-2624 | the two lengths and the layer count are written first |
| Document.WriteSectionBody | src/main.js:2625-2634 | records, channel data, the padding byte and the zero word follow |
| Document.WriteLayerInfo | src/main.js:2607-2635 | the section buffer is the layer info section of its parts |
| Document.CreateLayerInfoSection | src/main.js:2607-2635 | the section built from the layers is their layer info section |
| Document.SectionFound | src/main.js:2616-2619 | the first word of the section is the length of the rest of it |
| Document.FileLayout | src/main.js:2557-2589 | the file is the header, two empty sections with zero length words, the layer section and the composite |
| Document.FileCompositeFound | src/main.js:2557-2589 | a reader skipping the sections by their length words lands on the composite |
| Document.DocumentReadBack | src/main.js:2557-2589 | the exported file starts with the header and a reader finds the composite, whose planes interleave back to the flattened pixels |
| Document.WriteFileHead | src/main.js:2573-2582 | the header then two zero length words for the empty color mode and resource sections |
| Document.WriteFile | src/main.js:2573-2588 | the file buffer written at a running offset is the file |
| Document.BuildPsdDocument | src/main.js:2557-2589 | the bytes built are the exported document of the page |
| AutoWrap.Clamp | src/main.js:2353-2355 | the result lies in [lo, hi] and is the value when the value is already in range |
| AutoWrap.MaxPerLine | src/main.js:119 | the per-line limit is in 1..20, 5 when the floor of the setting is 0 |
| AutoWrap.LastNonEmpty | src/main.js:136-142 | the index of the last non-empty line, with all later lines empty, or -1 |
| AutoWrap.FoldInv | src/main.js:120-159 | after any prefix of the text, the finished lines and the open line have no line feed, respect the limit, and spell the prefix |
| AutoWrap.WrappedLines | src/main.js:117-161 | the result is lines joined by line feeds, each with no line feed and at most the limit of non-punctuation characters |
| AutoWrap.WrappedKeepsText | src/main.js:117-161 | wrapping keeps every character other than a line feed, in order: removing line feeds from input and output gives the same text |
| AutoWrap.ApplyAutoWrap | src/main.js:117-161 | the loop computes the wrapped text |
| AutoWrap.DisplayKeepsText | src/main.js:100-106 | the displayed text spells the raw text, line feeds aside |
| AutoWrap.GetBubbleDisplayText | src/main.js:100-106 | empty raw text shows as empty, otherwise wrapped only when auto-wrap is on |
| Caret.RawIndex | src/main.js:163-171 | the raw index never exceeds the number of non-line-feed units |
| Caret.DisplayIndex | src/main.js:173-185 | the display index never exceeds the text length |
| Caret.Position | src/main.js:173-185 | the position right after the k-th non-line-feed unit is a unit that is not a line feed, with k such units up to it |
| Caret.PositionUnique | src/main.js:173-185 | that position is the only one with this property |
| Caret.RawDisplayRaw | src/main.js:163-185 | mapping a raw index to the display and back returns it, capped at the count of non-line-feed units |
| Caret.DisplayRawDisplay | src/main.js:163-185 | mapping a display index to raw and back never moves right, and is exact unless the caret sits after a line feed |
| Caret.RawIndexFromDisplay | src/main.js:163-171 | the loop computes the raw index |
| Caret.DisplayIndexFromRaw | src/main.js:173-185 | the loop computes the display index |
| History.Pushed | src/main.js:2323-2334 | pushing drops the redo tail, appends the snapshot and points at it, keeping all earlier entries |
| History.Undone | src/main.js:2336-2339 | undo at index 0 or below does nothing; otherwise it steps back one and restores that entry |
| History.UndoAfterPush | src/main.js:2323-2339 | undo right after a push restores the state before the push |
| History.FirstPushCannotBeUndone | src/main.js:2336-2337 | the first snapshot cannot be undone |
| History.UndoTimesRestores | src/main.js:2336-2339 | n undos step back n entries and restore the entry there |
| History.Log.PushHistory | src/main.js:2323-2334 | the stored history becomes the pushed history |
| History.Log.Undo | src/main.js:2336-2339 | the stored history becomes the undone history, and the restored snapshot is returned |
| LayerStack.ClampNumber | app.js:261-263 | the result is at least min, at most max when min <= max, and the value itself when in range |
| LayerStack.InsertIndex | app.js:473 | the insertion index is the layer index clamped into 0..length |
| LayerStack.FindIndex | app.js:1280 | the first index satisfying the predicate, or -1 when none does |
| LayerStack.IndexById | app.js:1280 | the first element with the id, or -1 exactly when no element has it |
| LayerStack.FindById | app.js:1020 | find returns an element with the id exactly when one exists |
| LayerStack.DropById | app.js:968-972 | removal by id changes nothing when the id is absent and removes one element otherwise |
| LayerStack.WithoutMembers | app.js:973 | the filter removes exactly the entries of that type and id |
| LayerStack.WithoutAppend | app.js:973 | the filter distributes over concatenation, so kept entries keep their order |
| LayerStack.WithoutNoMatch | app.js:973 | with no matching entry the filter changes nothing |
| LayerStack.WithoutOnly | app.js:973 | when exactly one entry matches, the filter removes just that position |
| LayerStack.DropByIdMembers | app.js:967-972 | with unique ids, removal leaves exactly the other ids, still unique |
| LayerStack.InsertAtMembers | app.js:474 | the splice adds exactly one copy of the new entry |
| LayerStack.MovedIsPermutation | app.js:1477-1482 | a move is a permutation: the moved entry ends at 'to' and the others keep their relative order |
| LayerStack.MoveBack | app.js:1477-1482 | moving an entry and moving it back restores the list |
| LayerStack.RemovePanelInStep | app.js:967-974 | removing a panel keeps layers, panels and bubbles in step |
| LayerStack.RemoveBubbleInStep | app.js:1294-1308 | deleting a bubble keeps layers, panels and bubbles in step |
| LayerStack.CreatePanelInStep | app.js:472-474 | adding a panel with a fresh id at any index keeps the lists in step |
| LayerStack.AddBubbleInStep | app.js:1570-1571 | adding a bubble with a fresh id keeps the lists in step |
| LayerStack.MoveInStep | app.js:1477-1482 | moving an entry keeps the lists in step |
| LayerStack.CutLayerIndex | app.js:676-688 | the cut index is the panel's entry (or 0 if missing), or without a panel the first bubble entry, with only panel entries below it |
| LayerStack.SplitReplacesEntry | app.js:947-965 | splitting a panel at the index the cut chose puts the two halves exactly where its entry was |
| LayerStack.SplitBelowBubbles | app.js:676-688 | a split without a panel goes above the leading panel entries and below the first bubble |
| LayerStack.TopIndex | app.js:1016-1026 | the topmost entry that is a panel containing the point, with no hit above it; -1 only when nothing is hit |
| LayerStack.ZIndicesKeys | app.js:1484-1495 | exactly the entries whose panel or bubble exists get a z-index |
| LayerStack.ZIndicesOfEntries | app.js:1484-1495 | with no entry twice, the entry at position i gets z-index 10 + i |
| LayerStack.ZOrderIncreases | app.js:1484-1495 | z-order strictly increases up the list |
| LayerStack.InStepZIndices | app.js:1484-1495 | with the lists in step every entry is present, so entry i gets exactly 10 + i |
| LayerStack.Editor.constructor | app.js:15-20 | the editor starts with empty lists, nothing selected and in view mode, in step |
| LayerStack.Editor.CreatePanel | app.js:391-481 | the panel is appended and its entry inserted at the clamped index; selecting it clears the bubble selection and leaves cut mode; the z-indices are re-applied unless both `select` and `refreshLayers` are off; a fresh id keeps the lists in step, and then a refresh stacks every element at its position |
| LayerStack.Editor.AddBubble | app.js:1569-1574 | the bubble and its entry go on top, the z-indices are re-applied and the bubble is selected; a fresh id keeps the lists in step with every element stacked at its position |
| LayerStack.Editor.RemovePanelById | app.js:967-974 | the first panel with the id and all its panel entries are removed, keeping the lists in step |
| LayerStack.Editor.DeletePanelById | app.js:1278-1292 | an empty id does nothing; otherwise the panel is removed, the panel selection cleared only when it was this panel, and the z-indices re-applied, so in-step lists stay stacked by position |
| LayerStack.Editor.DeleteBubbleById | app.js:1294-1308 | an empty id does nothing; otherwise the bubble is removed, the bubble selection cleared only when it was this bubble, and the z-indices re-applied, so in-step lists stay stacked by position |
| LayerStack.Editor.MoveLayer | app.js:1477-1482 | an out-of-range target changes nothing; otherwise the list becomes the move and the z-indices are re-applied, so the moved element is stacked at 10 + `to` |
| LayerStack.Editor.ApplySplitGeometry | app.js:947-965 | the cut panel is removed, selections cleared, the halves inserted side by side at the chosen index, cut mode set and the z-indices re-applied; with two fresh distinct ids the lists stay in step and stacked by position |
| LayerStack.Editor.PlaceHalves | app.js:959-960 | the two createPanel calls, each clamping its index, put the halves next to each other without touching the z-indices; two fresh distinct ids keep the lists in step |
| LayerStack.Editor.FindPanelAtPoint | app.js:1016-1026 | the downward scan returns the panel of the topmost hit entry, or null |
| LayerStack.Editor.ApplyLayerZIndices | app.js:1484-1495 | the loop writes the z-indices of the present entries, later ones overriding |
| LayerStack.Editor.RefreshLayers | app.js:1432-1475 | the z-indices are re-applied and nothing else in the state changes; with the lists in step every element ends up at 10 + its position |
| LayerStack.Editor.SelectPanel | app.js:1201-1222 | the panel is selected, the bubble selection cleared, view mode set and the z-indices re-applied |
| LayerStack.Editor.SelectBubble | app.js:1224-1246 | the bubble is selected, the panel selection cleared, view mode set and the z-indices re-applied |

## Left out

- Canvas drawing is not modelled: page image, panels, bubbles, text glyphs and the composite. A page's pixels come in as a parameter per layer source, and the composite's pixels as a byte list.
- Asynchronous work is not modelled: awaits, Promise.all, image decoding, the Blob download, and the editor's DOM and event handling.
- setFloat64 (IEEE 754 bits) and Number.prototype.toFixed(2) are passed in as functions rather than modelled.
- Text is Dafny strings of Unicode scalar values. Lone UTF-16 surrogates cannot be represented. The caret mapping works on UTF-16 code units. Wrapping iterates code points (for...of).
- NaN and the coercions `Number(x) || 0`, `value || ''` and `bubble.fontSize || 24` are not modelled. Values are assumed to be numbers or strings already. getTextRect's arithmetic is over reals with no NaN.
- getBubbleRawText is not part of this model. Its fallback for non-string text is outside the model: the raw text is a parameter.
- The layer order follows the code: image, panel images, panel frames, bubbles, texts.
- Document.DocumentReadBack: assumes the layer section's length fits 32 bits. The code writes the length with writeUint32, which would wrap beyond that.
- LayerStack.Editor.MoveLayer: requires 0 <= from < |layers|. Every caller (the up and down buttons in refreshLayers) passes the entry's own index. splice with an out-of-range `from` would insert `undefined`, which a list of layer entries cannot hold.
- refreshLayers rebuilds the layer panel's list items and their buttons. Only its state effect, re-applying the z-indices, is modelled (RefreshLayers). The DOM work of selectPanel and selectBubble (classes, handles, controls, stopping bubble editing) is left out as well.
- Ids come from createId (randomUUID or a timestamp) and are assumed fresh. The in-step lemmas take freshness as a precondition.
- pointInPolygon is a parameter of FindPanelAtPoint.
- Element z-indices are kept as a map keyed by layer entry, not as DOM style properties.
- History snapshots are opaque strings (JSON.stringify of the editor state). Restoring the bubbles, panels and viewport from them (restorePanels, render) is not modelled.
