/** Action descriptors: the self-describing key / type / value structure in
    which the type-tool block carries its text, bounds and warp settings
    (encodeDescriptor, encodeDescriptorValue, encodeClassId).  A nested
    object value is a descriptor again, written without the signature. */
module Descriptors {
  import opened Bytes
  import opened Text

  /** A descriptor value: one constructor per type tag the encoder knows,
      and `Other` for any other tag, whose value the encoder leaves empty. */
  datatype Value =
    | TextValue(text: string)                    // 'TEXT'
    | Doub(x: real)                              // 'doub'
    | Long(n: int)                               // 'long'
    | Bool(flag: bool)                           // 'bool'
    | UnitFloat(unit: string, x: real)           // 'UntF'
    | RawData(data: Bytes)                       // 'tdta'
    | Object(desc: Descriptor)                   // 'Objc'
    | Enumerated(typeId: string, enumId: string) // 'enum'
    | Other(tag: string)

  datatype Item = Item(key: string, value: Value)

  datatype Descriptor = Descriptor(name: string, classId: string, items: seq<Item>)

  /** JavaScript's `s || fallback` on a string. */
  function Or(s: string, fallback: string): string
  {
    if s == "" then fallback else s
  }

  /** The type string written in front of a value. */
  function TypeTag(v: Value): string
  {
    match v
    case TextValue(_) => "TEXT"
    case Doub(_) => "doub"
    case Long(_) => "long"
    case Bool(_) => "bool"
    case UnitFloat(_, _) => "UntF"
    case RawData(_) => "tdta"
    case Object(_) => "Objc"
    case Enumerated(_, _) => "enum"
    case Other(tag) => tag
  }

  /** A type tag as written: stringToBytes(type, 4). */
  function Tag(s: string): Bytes
  {
    FixedField(s, 4)
  }

  /** The '8BIM' signature in front of an outermost descriptor. */
  const Signature: Bytes := [0x38, 0x42, 0x49, 0x4D]

  // ---------------------------------------------------------------------
  // encodeClassId
  // ---------------------------------------------------------------------

  /** A four-character ASCII identifier is stored as a zero length and its
      four bytes; any other identifier as its UTF-8 length and bytes. */
  function ClassIdBytes(id: string): (r: Bytes)
    ensures |r| == 4 + |Utf8(id)|
  {
    if |Utf16(id)| == 4 && IsAscii(id) then BE32(0) + Utf8(id)
    else BE32(|Utf8(id)|) + Utf8(id)
  }

  /** ASCII text has one UTF-16 unit and one UTF-8 byte per character. */
  lemma AsciiLengths(s: string)
    requires IsAscii(s)
    ensures |Utf16(s)| == |s| == |Utf8(s)|
  {
    Utf8Ascii(s);
    Utf16Bmp(s);
  }

  /** Reads a class identifier: a zero length means a four-byte key. */
  function DecodeClassId(b: Bytes): (r: Option<(Bytes, Bytes)>)
    ensures r.Some? ==> |r.value.1| + 4 <= |b|
  {
    if |b| < 4 then None
    else
      var n := U32At(b, 0);
      var length := if n == 0 then 4 else n;
      if |b| < 4 + length then None else Some((b[4..4 + length], b[4 + length..]))
  }

  /** The short form is used exactly for four ASCII characters, and then the
      field is eight bytes: four zeros and the characters. */
  lemma ClassIdShortForm(id: string)
    ensures |ClassIdBytes(id)| == 8 && ClassIdBytes(id)[..4] == [0, 0, 0, 0] <==> |id| == 4 && IsAscii(id)
    ensures |id| == 4 && IsAscii(id) ==>
      forall i :: 0 <= i < 4 ==> ClassIdBytes(id)[4 + i] as int == id[i] as int
  {
    var r := ClassIdBytes(id);
    if |id| == 4 && IsAscii(id) {
      AsciiLengths(id);
      Utf8Ascii(id);
      assert BE32(0) == [0, 0, 0, 0];
    } else if |Utf16(id)| == 4 && IsAscii(id) {
      AsciiLengths(id);
    } else if |r| == 8 {
      assert r[..4] == BE32(4);
      assert BE32(0) == [0, 0, 0, 0];
      DecodeEncodeFits(0, 4);
      DecodeEncodeFits(4, 4);
    }
  }

  /** Every non-empty identifier reads back as its UTF-8 bytes, and the
      reader stops exactly at the end of the field. */
  lemma ClassIdRoundTrip(id: string, rest: Bytes)
    requires id != "" && |Utf8(id)| < 0x1_0000_0000
    ensures DecodeClassId(ClassIdBytes(id) + rest) == Some((Utf8(id), rest))
  {
    var e := Utf8(id);
    if |Utf16(id)| == 4 && IsAscii(id) {
      AsciiLengths(id);
      WordField(0, e, rest);
    } else {
      WordField(|e|, e, rest);
    }
  }

  /** A u32 word, bytes and what follows: the word reads back, and the
      bytes and the rest sit right after it. */
  lemma WordField(w: int, e: Bytes, rest: Bytes)
    requires 0 <= w < 0x1_0000_0000
    ensures var b := BE32(w) + e + rest;
      && |b| == 4 + |e| + |rest|
      && U32At(b, 0) == w
      && b[4..4 + |e|] == e
      && b[4 + |e|..] == rest
  {
    var b := BE32(w) + e + rest;
    assert b[0..4] == BE32(w);
    DecodeEncodeFits(w, 4);
  }

  /** The empty identifier is written as a zero length with nothing after
      it, which a reader takes for the start of a four-byte key. */
  lemma EmptyClassId()
    ensures ClassIdBytes("") == [0, 0, 0, 0]
  {
    assert BE32(0) == [0, 0, 0, 0];
  }

  // ---------------------------------------------------------------------
  // encodeDescriptorValue / encodeDescriptor
  // ---------------------------------------------------------------------

  /** The bytes of one value; `float64` is DataView.setFloat64. */
  function ValueBytes(v: Value, float64: real -> Bytes8): Bytes
    decreases v, 1
  {
    match v
    case TextValue(s) => UnicodeString(s)
    case Doub(x) => float64(x)
    case Long(n) => BE32(n)
    case Bool(flag) => [if flag then 1 else 0]
    case UnitFloat(unit, x) => FixedField(Or(unit, "#Pxl"), 4) + float64(x)
    case RawData(data) => DataBytes(data)
    case Object(d) => BodyBytes(d, float64)
    case Enumerated(t, e) => ClassIdBytes(Or(t, "null")) + ClassIdBytes(Or(e, "null"))
    case Other(_) => []
  }

  /** A raw-data value: u32 length of the data, the data, and a zero byte
      when the length is odd (not counted in the length). */
  function DataBytes(data: Bytes): (r: Bytes)
    ensures |r| == 4 + |data| + |data| % 2 && |r| % 2 == 0
  {
    var pad: Bytes := if |data| % 2 == 0 then [] else [0];
    BE32(|data|) + data + pad
  }

  /** Key, four-byte type tag, value. */
  function ItemBytes(item: Item, float64: real -> Bytes8): Bytes
    decreases item, 2
  {
    ClassIdBytes(item.key) + Tag(TypeTag(item.value)) + ValueBytes(item.value, float64)
  }

  function ItemsBytes(items: seq<Item>, float64: real -> Bytes8): Bytes
    decreases items, 3
  {
    if items == [] then [] else ItemBytes(items[0], float64) + ItemsBytes(items[1..], float64)
  }

  /** A descriptor without signature: Unicode name, class id (default
      'null'), u32 item count, the items in order. */
  function BodyBytes(d: Descriptor, float64: real -> Bytes8): Bytes
    decreases d, 0
  {
    UnicodeString(d.name) + ClassIdBytes(Or(d.classId, "null")) + BE32(|d.items|) + ItemsBytes(d.items, float64)
  }

  /** The outermost call prefixes '8BIM'; a nested object does not. */
  function DescriptorBytes(d: Descriptor, includeSignature: bool, float64: real -> Bytes8): (r: Bytes)
    ensures includeSignature ==> |r| >= 4 && r[..4] == Signature && r[4..] == BodyBytes(d, float64)
    ensures !includeSignature ==> r == BodyBytes(d, float64)
  {
    if includeSignature then Signature + BodyBytes(d, float64) else BodyBytes(d, float64)
  }

  /** Fixed sizes of the scalar values: a double is 8 bytes, a long 4, a
      bool 1, a unit float 12, raw data its length word plus the data padded
      to even, an unknown tag nothing. */
  lemma ValueSizes(v: Value, float64: real -> Bytes8)
    ensures var r := ValueBytes(v, float64);
      match v
      case TextValue(s) => |r| == 4 + 2 * |Utf16(s)|
      case Doub(_) => |r| == 8
      case Long(_) => |r| == 4
      case Bool(_) => |r| == 1
      case UnitFloat(_, _) => |r| == 12
      case RawData(data) => |r| == 4 + |data| + |data| % 2 && |r| % 2 == 0
      case Enumerated(t, e) => |r| == 8 + |Utf8(Or(t, "null"))| + |Utf8(Or(e, "null"))|
      case Object(d) => |r| == |BodyBytes(d, float64)|
      case Other(_) => |r| == 0
  {
  }

  /** Appending one item to the list appends its bytes. */
  lemma {:induction false} ItemsBytesSnoc(items: seq<Item>, item: Item, float64: real -> Bytes8)
    ensures ItemsBytes(items + [item], float64) == ItemsBytes(items, float64) + ItemBytes(item, float64)
  {
    if items == [] {
      assert items + [item] == [item];
      assert [item][1..] == [];
    } else {
      assert (items + [item])[0] == items[0];
      assert (items + [item])[1..] == items[1..] + [item];
      ItemsBytesSnoc(items[1..], item, float64);
    }
  }

  // ---------------------------------------------------------------------
  // Reading a descriptor back
  // ---------------------------------------------------------------------

  const TextTag: Bytes := [0x54, 0x45, 0x58, 0x54]  // 'TEXT'
  const DoubTag: Bytes := [0x64, 0x6F, 0x75, 0x62]  // 'doub'
  const LongTag: Bytes := [0x6C, 0x6F, 0x6E, 0x67]  // 'long'
  const BoolTag: Bytes := [0x62, 0x6F, 0x6F, 0x6C]  // 'bool'
  const UntFTag: Bytes := [0x55, 0x6E, 0x74, 0x46]  // 'UntF'
  const TdtaTag: Bytes := [0x74, 0x64, 0x74, 0x61]  // 'tdta'
  const ObjcTag: Bytes := [0x4F, 0x62, 0x6A, 0x63]  // 'Objc'
  const EnumTag: Bytes := [0x65, 0x6E, 0x75, 0x6D]  // 'enum'

  function KnownTags(): seq<Bytes>
  {
    [TextTag, DoubTag, LongTag, BoolTag, UntFTag, TdtaTag, ObjcTag, EnumTag]
  }

  /** stringToBytes of each known type string gives its tag bytes. */
  lemma TypeTagBytes(v: Value)
    ensures match v
      case TextValue(_) => Tag(TypeTag(v)) == TextTag
      case Doub(_) => Tag(TypeTag(v)) == DoubTag
      case Long(_) => Tag(TypeTag(v)) == LongTag
      case Bool(_) => Tag(TypeTag(v)) == BoolTag
      case UnitFloat(_, _) => Tag(TypeTag(v)) == UntFTag
      case RawData(_) => Tag(TypeTag(v)) == TdtaTag
      case Object(_) => Tag(TypeTag(v)) == ObjcTag
      case Enumerated(_, _) => Tag(TypeTag(v)) == EnumTag
      case Other(tag) => Tag(TypeTag(v)) == FixedField(tag, 4)
  {
    if !v.Other? {
      FixedFieldAscii(TypeTag(v));
    }
  }

  /** What a reader recovers: UTF-16 units for names and text, UTF-8 bytes
      for identifiers, the raw eight bytes of each double. */
  datatype RawValue =
    | RText(units: seq<CodeUnit>)
    | RDoub(bits: Bytes)
    | RLong(n: int)
    | RBool(flag: byte)
    | RUnitFloat(unit: Bytes, bits: Bytes)
    | RData(data: Bytes)
    | RObject(desc: RawDescriptor)
    | REnum(typeId: Bytes, enumId: Bytes)
    | ROther

  datatype RawItem = RawItem(key: Bytes, tag: Bytes, value: RawValue)

  datatype RawDescriptor = RawDescriptor(name: seq<CodeUnit>, classId: Bytes, items: seq<RawItem>)

  function DecodeValue(tag: Bytes, b: Bytes): (r: Option<(RawValue, Bytes)>)
    decreases |b|, 1
    ensures r.Some? ==> |r.value.1| <= |b|
  {
    if tag == TextTag then
      match DecodeUnicodeString(b)
      case None => None
      case Some((units, rest)) => Some((RText(units), rest))
    else if tag == DoubTag then
      if |b| < 8 then None else Some((RDoub(b[..8]), b[8..]))
    else if tag == LongTag then
      if |b| < 4 then None else Some((RLong(I32At(b, 0)), b[4..]))
    else if tag == BoolTag then
      if |b| < 1 then None else Some((RBool(b[0]), b[1..]))
    else if tag == UntFTag then
      if |b| < 12 then None else Some((RUnitFloat(b[..4], b[4..12]), b[12..]))
    else if tag == TdtaTag then
      DecodeData(b)
    else if tag == ObjcTag then
      match DecodeBody(b)
      case None => None
      case Some((d, rest)) => Some((RObject(d), rest))
    else if tag == EnumTag then
      match DecodeClassId(b)
      case None => None
      case Some((t, b1)) =>
        match DecodeClassId(b1)
        case None => None
        case Some((e, b2)) => Some((REnum(t, e), b2))
    else Some((ROther, b))
  }

  function DecodeData(b: Bytes): (r: Option<(RawValue, Bytes)>)
    ensures r.Some? ==> |r.value.1| <= |b|
  {
    if |b| < 4 then None
    else
      var n := U32At(b, 0);
      if |b| < 4 + n + n % 2 then None else Some((RData(b[4..4 + n]), b[4 + n + n % 2..]))
  }

  function DecodeItems(b: Bytes, n: nat): (r: Option<(seq<RawItem>, Bytes)>)
    decreases |b|, 0
    ensures r.Some? ==> |r.value.1| <= |b|
  {
    if n == 0 then Some(([], b))
    else
      match DecodeClassId(b)
      case None => None
      case Some((key, b1)) =>
        if |b1| < 4 then None
        else
          var tag := b1[..4];
          match DecodeValue(tag, b1[4..])
          case None => None
          case Some((v, b2)) =>
            match DecodeItems(b2, n - 1)
            case None => None
            case Some((more, b3)) => Some(([RawItem(key, tag, v)] + more, b3))
  }

  function DecodeBody(b: Bytes): (r: Option<(RawDescriptor, Bytes)>)
    decreases |b|, 0
    ensures r.Some? ==> |r.value.1| < |b|
  {
    match DecodeUnicodeString(b)
    case None => None
    case Some((name, b1)) =>
      match DecodeClassId(b1)
      case None => None
      case Some((classId, b2)) =>
        if |b2| < 4 then None
        else
          match DecodeItems(b2[4..], U32At(b2, 0))
          case None => None
          case Some((items, b3)) => Some((RawDescriptor(name, classId, items), b3))
  }

  /** What reading back should give for a value. */
  function RawOf(v: Value, float64: real -> Bytes8): RawValue
    decreases v, 1
  {
    match v
    case TextValue(s) => RText(Utf16(s))
    case Doub(x) => RDoub(float64(x))
    case Long(n) => RLong(ToInt32(n))
    case Bool(flag) => RBool(if flag then 1 else 0)
    case UnitFloat(unit, x) => RUnitFloat(FixedField(Or(unit, "#Pxl"), 4), float64(x))
    case RawData(data) => RData(data)
    case Object(d) => RObject(RawBodyOf(d, float64))
    case Enumerated(t, e) => REnum(Utf8(Or(t, "null")), Utf8(Or(e, "null")))
    case Other(_) => ROther
  }

  function RawItemOf(item: Item, float64: real -> Bytes8): RawItem
    decreases item, 2
  {
    RawItem(Utf8(item.key), Tag(TypeTag(item.value)), RawOf(item.value, float64))
  }

  function RawItemsOf(items: seq<Item>, float64: real -> Bytes8): seq<RawItem>
    decreases items, 3
  {
    if items == [] then [] else [RawItemOf(items[0], float64)] + RawItemsOf(items[1..], float64)
  }

  /** Reading back maps over the items one by one. */
  lemma {:induction false} RawItemsAt(items: seq<Item>, float64: real -> Bytes8)
    ensures |RawItemsOf(items, float64)| == |items|
    ensures forall i :: 0 <= i < |items| ==> RawItemsOf(items, float64)[i] == RawItemOf(items[i], float64)
  {
    if items != [] {
      RawItemsAt(items[1..], float64);
      forall i | 0 <= i < |items|
        ensures RawItemsOf(items, float64)[i] == RawItemOf(items[i], float64)
      {
        if i > 0 {
          assert items[i] == items[1..][i - 1];
        }
      }
    }
  }

  function RawBodyOf(d: Descriptor, float64: real -> Bytes8): RawDescriptor
    decreases d, 0
  {
    RawDescriptor(Utf16(d.name), Utf8(Or(d.classId, "null")), RawItemsOf(d.items, float64))
  }

  /** Lengths fit their 32-bit fields (an identifier of fewer than 2^30
      characters has fewer than 2^32 UTF-8 bytes), item keys are non-empty,
      and a tag outside the known set does not collide with a known one. */
  predicate WellFormedValue(v: Value)
    decreases v, 1
  {
    match v
    case TextValue(s) => |Utf16(s)| < 0x1_0000_0000
    case RawData(data) => |data| < 0x1_0000_0000
    case Object(d) => WellFormedBody(d)
    case Enumerated(t, e) => |Or(t, "null")| < 0x4000_0000 && |Or(e, "null")| < 0x4000_0000
    case Other(tag) => FixedField(tag, 4) !in KnownTags()
    case _ => true
  }

  predicate WellFormedItem(item: Item)
    decreases item, 2
  {
    item.key != "" && |item.key| < 0x4000_0000 && WellFormedValue(item.value)
  }

  predicate WellFormedBody(d: Descriptor)
    decreases d, 0
  {
    && |Utf16(d.name)| < 0x1_0000_0000
    && |Or(d.classId, "null")| < 0x4000_0000
    && |d.items| < 0x1_0000_0000
    && forall i :: 0 <= i < |d.items| ==> WellFormedItem(d.items[i])
  }

  lemma LongRoundTrip(n: int, rest: Bytes)
    ensures DecodeValue(LongTag, BE32(n) + rest) == Some((RLong(ToInt32(n)), rest))
  {
    var b := BE32(n) + rest;
    assert LongTag[0] != TextTag[0] && LongTag[0] != DoubTag[0];
    assert LongTag != TextTag && LongTag != DoubTag;
    Int32Field(n);
    assert BE32(n)[0..4] == BE32(n);
    assert b[0..4] == BE32(n);
    assert I32At(b, 0) == ToInt32(n);
    assert b[4..] == rest;
  }

  lemma DoubRoundTrip(bits: Bytes8, rest: Bytes)
    ensures DecodeValue(DoubTag, bits + rest) == Some((RDoub(bits), rest))
  {
    assert (bits + rest)[..8] == bits && (bits + rest)[8..] == rest;
  }

  lemma BoolRoundTrip(flag: byte, rest: Bytes)
    ensures DecodeValue(BoolTag, [flag] + rest) == Some((RBool(flag), rest))
  {
    assert ([flag] + rest)[1..] == rest;
  }

  lemma UnitFloatRoundTrip(unit: Bytes, bits: Bytes8, rest: Bytes)
    requires |unit| == 4
    ensures DecodeValue(UntFTag, unit + bits + rest) == Some((RUnitFloat(unit, bits), rest))
  {
    var b := unit + bits + rest;
    assert b[..4] == unit && b[4..12] == bits && b[12..] == rest;
  }

  lemma TextRoundTrip(s: string, rest: Bytes)
    requires |Utf16(s)| < 0x1_0000_0000
    ensures DecodeValue(TextTag, UnicodeString(s) + rest) == Some((RText(Utf16(s)), rest))
  {
    UnicodeStringRoundTrip(s, rest);
  }

  /** The length word of a raw-data value counts the data only; the pad
      byte is skipped and the reader resumes right after it. */
  lemma DataRoundTrip(data: Bytes, rest: Bytes)
    requires |data| < 0x1_0000_0000
    ensures DecodeValue(TdtaTag, DataBytes(data) + rest) == Some((RData(data), rest))
  {
    var pad: Bytes := if |data| % 2 == 0 then [] else [0];
    assert DataBytes(data) + rest == BE32(|data|) + data + (pad + rest);
    WordField(|data|, data, pad + rest);
    assert (pad + rest)[|pad|..] == rest;
  }

  lemma EnumRoundTrip(t: string, e: string, rest: Bytes)
    requires |Utf8(Or(t, "null"))| < 0x1_0000_0000 && |Utf8(Or(e, "null"))| < 0x1_0000_0000
    ensures DecodeValue(EnumTag, ClassIdBytes(Or(t, "null")) + ClassIdBytes(Or(e, "null")) + rest)
      == Some((REnum(Utf8(Or(t, "null")), Utf8(Or(e, "null"))), rest))
  {
    var tb := ClassIdBytes(Or(t, "null"));
    var eb := ClassIdBytes(Or(e, "null"));
    assert tb + eb + rest == tb + (eb + rest);
    ClassIdRoundTrip(Or(t, "null"), eb + rest);
    ClassIdRoundTrip(Or(e, "null"), rest);
    EnumStep(tb + (eb + rest), Utf8(Or(t, "null")), eb + rest, Utf8(Or(e, "null")), rest);
  }

  lemma EnumStep(b: Bytes, t: Bytes, b1: Bytes, e: Bytes, b2: Bytes)
    requires DecodeClassId(b) == Some((t, b1)) && DecodeClassId(b1) == Some((e, b2))
    ensures DecodeValue(EnumTag, b) == Some((REnum(t, e), b2))
  {
  }

  lemma OtherRoundTrip(tag: string, rest: Bytes)
    requires FixedField(tag, 4) !in KnownTags()
    ensures DecodeValue(FixedField(tag, 4), rest) == Some((ROther, rest))
  {
  }

  lemma ObjectRoundTrip(d: RawDescriptor, b: Bytes, rest: Bytes)
    requires DecodeBody(b) == Some((d, rest))
    ensures DecodeValue(ObjcTag, b) == Some((RObject(d), rest))
  {
  }

  /** Reading a value back with its own tag recovers it and stops at the
      end of its bytes. */
  lemma {:induction false} ValueRoundTrip(v: Value, float64: real -> Bytes8, rest: Bytes)
    requires WellFormedValue(v)
    decreases v, 1
    ensures DecodeValue(Tag(TypeTag(v)), ValueBytes(v, float64) + rest) == Some((RawOf(v, float64), rest))
  {
    TypeTagBytes(v);
    match v
    case TextValue(s) => TextRoundTrip(s, rest);
    case Doub(x) => DoubRoundTrip(float64(x), rest);
    case Long(n) => LongRoundTrip(n, rest);
    case Bool(flag) => BoolRoundTrip(if flag then 1 else 0, rest);
    case UnitFloat(unit, x) => UnitFloatRoundTrip(FixedField(Or(unit, "#Pxl"), 4), float64(x), rest);
    case RawData(data) => DataRoundTrip(data, rest);
    case Object(d) =>
      BodyRoundTrip(d, float64, rest);
      ObjectRoundTrip(RawBodyOf(d, float64), BodyBytes(d, float64) + rest, rest);
    case Enumerated(t, e) => EnumRoundTrip(t, e, rest);
    case Other(tag) =>
      assert ValueBytes(v, float64) + rest == rest;
      OtherRoundTrip(tag, rest);
  }

  /** The items read back in order, each with its key, tag and value. */
  lemma {:induction false} ItemsRoundTrip(items: seq<Item>, float64: real -> Bytes8, rest: Bytes)
    requires forall i :: 0 <= i < |items| ==> WellFormedItem(items[i])
    decreases items, 3
    ensures DecodeItems(ItemsBytes(items, float64) + rest, |items|) == Some((RawItemsOf(items, float64), rest))
  {
    if items == [] {
      assert ItemsBytes(items, float64) + rest == rest;
    } else {
      var item := items[0];
      var more := ItemsBytes(items[1..], float64);
      assert WellFormedItem(item);
      ValueRoundTrip(item.value, float64, more + rest);
      TailWellFormed(items);
      ItemsRoundTrip(items[1..], float64, rest);
      ItemReads(item.key, Tag(TypeTag(item.value)), ValueBytes(item.value, float64), more, rest,
                RawOf(item.value, float64), RawItemsOf(items[1..], float64), |items| - 1);
    }
  }

  /** The reader's step over one item: its key, its tag and a value that
      reads back, in front of items that read back. */
  lemma ItemReads(key: string, tag: Bytes, vb: Bytes, more: Bytes, rest: Bytes,
                  v: RawValue, raws: seq<RawItem>, n: nat)
    requires key != "" && |Utf8(key)| < 0x1_0000_0000 && |tag| == 4
    requires DecodeValue(tag, vb + (more + rest)) == Some((v, more + rest))
    requires DecodeItems(more + rest, n) == Some((raws, rest))
    ensures DecodeItems(ClassIdBytes(key) + tag + vb + more + rest, n + 1)
      == Some(([RawItem(Utf8(key), tag, v)] + raws, rest))
  {
    var tail := more + rest;
    KeyTagValue(key, tag, vb, tail, v);
    Assoc5(ClassIdBytes(key), tag, vb, more, rest);
    ItemsStep(ClassIdBytes(key) + (tag + (vb + tail)), n + 1, Utf8(key), tag + (vb + tail), v, tail, raws, rest);
  }

  lemma Assoc5(a: Bytes, b: Bytes, c: Bytes, d: Bytes, e: Bytes)
    ensures a + b + c + d + e == a + (b + (c + (d + e)))
  {
  }

  /** A key in front of a tag and a value that reads back. */
  lemma KeyTagValue(key: string, tag: Bytes, vb: Bytes, tail: Bytes, v: RawValue)
    requires key != "" && |Utf8(key)| < 0x1_0000_0000 && |tag| == 4
    requires DecodeValue(tag, vb + tail) == Some((v, tail))
    ensures var b1 := tag + (vb + tail);
      && DecodeClassId(ClassIdBytes(key) + b1) == Some((Utf8(key), b1))
      && b1[..4] == tag
      && DecodeValue(b1[..4], b1[4..]) == Some((v, tail))
  {
    var b1 := tag + (vb + tail);
    ClassIdRoundTrip(key, b1);
    assert b1[..4] == tag && b1[4..] == vb + tail;
  }

  lemma TailWellFormed(items: seq<Item>)
    requires items != [] && forall i :: 0 <= i < |items| ==> WellFormedItem(items[i])
    ensures forall i :: 0 <= i < |items[1..]| ==> WellFormedItem(items[1..][i])
  {
    forall i | 0 <= i < |items[1..]| ensures WellFormedItem(items[1..][i]) {
      assert items[1..][i] == items[i + 1];
    }
  }

  /** One step of the item reader: a key, a tag, a value, then the rest. */
  lemma ItemsStep(b: Bytes, n: nat, key: Bytes, b1: Bytes, v: RawValue, b2: Bytes, more: seq<RawItem>, b3: Bytes)
    requires n > 0
    requires DecodeClassId(b) == Some((key, b1)) && |b1| >= 4
    requires DecodeValue(b1[..4], b1[4..]) == Some((v, b2))
    requires DecodeItems(b2, n - 1) == Some((more, b3))
    ensures DecodeItems(b, n) == Some(([RawItem(key, b1[..4], v)] + more, b3))
  {
  }

  /** Reading the name, class id and count of a body, then its items. */
  lemma BodyHeader(name: string, classId: string, n: nat, tail: Bytes)
    requires |Utf16(name)| < 0x1_0000_0000 && classId != "" && |Utf8(classId)| < 0x1_0000_0000
    requires n < 0x1_0000_0000
    ensures DecodeBody(UnicodeString(name) + ClassIdBytes(classId) + BE32(n) + tail)
      == match DecodeItems(tail, n)
         case None => None
         case Some((items, b3)) => Some((RawDescriptor(Utf16(name), Utf8(classId), items), b3))
  {
    var b2 := BE32(n) + tail;
    var b1 := ClassIdBytes(classId) + b2;
    Assoc4(UnicodeString(name), ClassIdBytes(classId), BE32(n), tail);
    UnicodeStringRoundTrip(name, b1);
    ClassIdRoundTrip(classId, b2);
    CountField(n, tail);
    BodyStep(UnicodeString(name) + b1, Utf16(name), b1, Utf8(classId), b2, n);
  }

  lemma Assoc4(a: Bytes, b: Bytes, c: Bytes, d: Bytes)
    ensures a + b + c + d == a + (b + (c + d))
  {
  }

  /** The body reader: a name, a class id, a count, then the items. */
  lemma BodyStep(b: Bytes, name: seq<CodeUnit>, b1: Bytes, classId: Bytes, b2: Bytes, n: nat)
    requires DecodeUnicodeString(b) == Some((name, b1))
    requires DecodeClassId(b1) == Some((classId, b2))
    requires |b2| >= 4 && U32At(b2, 0) == n
    ensures DecodeBody(b)
      == match DecodeItems(b2[4..], n)
         case None => None
         case Some((items, b3)) => Some((RawDescriptor(name, classId, items), b3))
  {
  }

  /** A descriptor body reads back completely: name, class id, every item
      with its key, tag and value, and nothing beyond its end. */
  lemma {:induction false} BodyRoundTrip(d: Descriptor, float64: real -> Bytes8, rest: Bytes)
    requires WellFormedBody(d)
    decreases d, 0
    ensures DecodeBody(BodyBytes(d, float64) + rest) == Some((RawBodyOf(d, float64), rest))
  {
    var ib := ItemsBytes(d.items, float64);
    var cls := Or(d.classId, "null");
    assert BodyBytes(d, float64) + rest == UnicodeString(d.name) + ClassIdBytes(cls) + BE32(|d.items|) + (ib + rest);
    BodyHeader(d.name, cls, |d.items|, ib + rest);
    ItemsRoundTrip(d.items, float64, rest);
  }

  /** The outermost descriptor: '8BIM' then a body that reads back. */
  lemma DescriptorRoundTrip(d: Descriptor, float64: real -> Bytes8, rest: Bytes)
    requires WellFormedBody(d)
    ensures var b := DescriptorBytes(d, true, float64) + rest;
      b[..4] == Signature && DecodeBody(b[4..]) == Some((RawBodyOf(d, float64), rest))
  {
    BodyRoundTrip(d, float64, rest);
    SignaturePrefix(BodyBytes(d, float64), rest);
  }

  lemma SignaturePrefix(body: Bytes, rest: Bytes)
    ensures (Signature + body + rest)[..4] == Signature && (Signature + body + rest)[4..] == body + rest
  {
  }

  // ---------------------------------------------------------------------
  // The encoders as written
  // ---------------------------------------------------------------------

  /** encodeClassId: allocate the field, write the length word, copy the
      UTF-8 bytes after it. */
  method EncodeClassId(id: string) returns (r: Bytes)
    ensures r == ClassIdBytes(id)
  {
    var encoded := Utf8(id);
    if |Utf16(id)| == 4 && IsAscii(id) {
      AsciiLengths(id);
      r := WordThenBytes(8, 0, encoded);
    } else {
      r := WordThenBytes(4 + |encoded|, |encoded|, encoded);
    }
  }

  /** A buffer of the given size: a u32 word, then the bytes. */
  method WordThenBytes(size: nat, word: int, data: Bytes) returns (r: Bytes)
    requires size == 4 + |data|
    ensures r == BE32(word) + data
  {
    var buffer := new byte[size](_ => 0);
    WriteBE(buffer, 0, word, 4);
    WriteBytes(buffer, 4, data);
    assert buffer[..] == buffer[..4 + |data|];
    r := buffer[..];
  }

  /** encodeDescriptorValue: one branch per type tag. */
  method EncodeDescriptorValue(v: Value, float64: real -> Bytes8) returns (r: Bytes)
    decreases v, 1
    ensures r == ValueBytes(v, float64)
  {
    match v
    case TextValue(s) =>
      r := EncodeUnicodeStringWithLength(s);
    case Doub(x) =>
      r := EncodeDouble(float64(x));
    case Long(n) =>
      r := EncodeLong(n);
    case Bool(flag) =>
      r := [if flag then 1 else 0];
    case UnitFloat(unit, x) =>
      var unitBytes := StringToBytes(Or(unit, "#Pxl"), 4);
      r := EncodeUnitFloat(unitBytes, float64(x));
    case RawData(data) =>
      r := EncodeRawData(data);
    case Object(d) =>
      r := EncodeDescriptor(d, false, float64);
    case Enumerated(t, e) =>
      var typeId := EncodeClassId(Or(t, "null"));
      var enumId := EncodeClassId(Or(e, "null"));
      r := ConcatUint8Arrays([typeId, enumId]);
      FlattenPair(typeId, enumId);
    case Other(_) =>
      r := [];
  }

  /** The 'tdta' branch: copy odd-length data into an array one byte
      longer, then write the unpadded length and the padded bytes. */
  method EncodeRawData(data: Bytes) returns (r: Bytes)
    ensures r == DataBytes(data)
  {
    var padded := PadToEven(data);
    r := WordThenBytes(4 + |padded|, |data|, padded);
  }

  method PadToEven(data: Bytes) returns (padded: Bytes)
    ensures padded == data + (if |data| % 2 == 0 then [] else [0])
  {
    padded := data;
    if |data| % 2 != 0 {
      var extended := new byte[|data| + 1](_ => 0);
      WriteBytes(extended, 0, data);
      assert extended[..] == extended[..|data|] + extended[|data|..];
      padded := extended[..];
    }
  }

  /** The 'doub' branch: the eight bytes of the float in a fresh buffer. */
  method EncodeDouble(bits: Bytes8) returns (r: Bytes)
    ensures r == bits
  {
    var buffer := new byte[8](_ => 0);
    WriteBytes(buffer, 0, bits);
    r := buffer[..];
  }

  /** The 'long' branch: setInt32 into a four-byte buffer. */
  method EncodeLong(n: int) returns (r: Bytes)
    ensures r == BE32(n)
  {
    var buffer := new byte[4](_ => 0);
    WriteBE(buffer, 0, n, 4);
    r := buffer[..];
  }

  /** The 'UntF' branch: four unit bytes, then the float. */
  method EncodeUnitFloat(unitBytes: Bytes, bits: Bytes8) returns (r: Bytes)
    requires |unitBytes| == 4
    ensures r == unitBytes + bits
  {
    var buffer := new byte[4 + 8](_ => 0);
    WriteBytes(buffer, 0, unitBytes);
    WriteBytes(buffer, 4, bits);
    assert buffer[..] == buffer[..12];
    r := buffer[..];
  }

  lemma FlattenPair(a: Bytes, b: Bytes)
    ensures Flatten([a, b]) == a + b
  {
    assert [a, b][..1] == [a];
    FlattenOne(a);
  }

  lemma FlattenTriple(a: Bytes, b: Bytes, c: Bytes)
    ensures Flatten([a, b, c]) == a + b + c
  {
    assert [a, b, c][..2] == [a, b];
    FlattenPair(a, b);
  }

  /** encodeDescriptor: collect the name, class id and count, then three
      parts per item, concatenate, and prefix '8BIM' when asked. */
  method EncodeDescriptor(d: Descriptor, includeSignature: bool, float64: real -> Bytes8) returns (r: Bytes)
    decreases d, 0
    ensures r == DescriptorBytes(d, includeSignature, float64)
  {
    var name := EncodeUnicodeStringWithLength(d.name);
    var classId := EncodeClassId(Or(d.classId, "null"));
    var count := new byte[4](_ => 0);
    WriteBE(count, 0, |d.items|, 4);
    assert count[..] == count[..4] == BE32(|d.items|);
    var parts := [name, classId, count[..]];
    FlattenTriple(name, classId, count[..]);
    parts := PushItems(parts, d.items, float64);
    var body := ConcatUint8Arrays(parts);
    if !includeSignature {
      return body;
    }
    r := PrependSignature(body);
  }

  /** A buffer four bytes longer than the body: '8BIM', then the body. */
  method PrependSignature(body: Bytes) returns (r: Bytes)
    ensures r == Signature + body
  {
    var buffer := new byte[4 + |body|](_ => 0);
    WriteBytes(buffer, 0, Signature);
    WriteBytes(buffer, 4, body);
    assert buffer[..] == buffer[..4 + |body|];
    r := buffer[..];
  }

  /** The items.forEach of encodeDescriptor: push each item's key, type tag
      and value. */
  method PushItems(start: seq<Bytes>, items: seq<Item>, float64: real -> Bytes8) returns (parts: seq<Bytes>)
    decreases items, 3
    ensures Flatten(parts) == Flatten(start) + ItemsBytes(items, float64)
  {
    parts := start;
    ghost var header := Flatten(start);
    PartsStart(items, float64, header);
    var i := 0;
    while i < |items|
      invariant 0 <= i <= |items|
      invariant Flatten(parts) == header + ItemsBytes(items[..i], float64)
    {
      var item := items[i];
      var key := EncodeClassId(item.key);
      var tag := StringToBytes(TypeTag(item.value), 4);
      var value := EncodeDescriptorValue(item.value, float64);
      PartsStep(parts, header, items, i, float64, key, tag, value);
      parts := parts + [key, tag, value];
      i := i + 1;
    }
    assert items[..i] == items;
  }

  lemma PartsStart(items: seq<Item>, float64: real -> Bytes8, header: Bytes)
    ensures header == header + ItemsBytes(items[..0], float64)
  {
    assert items[..0] == [];
  }

  /** Pushing an item's key, tag and value parts extends the concatenation
      by that item's bytes. */
  lemma PartsStep(parts: seq<Bytes>, header: Bytes, items: seq<Item>, i: nat, float64: real -> Bytes8,
                  key: Bytes, tag: Bytes, value: Bytes)
    requires i < |items|
    requires Flatten(parts) == header + ItemsBytes(items[..i], float64)
    requires key == ClassIdBytes(items[i].key) && tag == FixedField(TypeTag(items[i].value), 4)
    requires value == ValueBytes(items[i].value, float64)
    ensures Flatten(parts + [key, tag, value]) == header + ItemsBytes(items[..i + 1], float64)
  {
    FlattenPush(parts, key, tag, value);
    ItemsPrefixStep(items, i, float64);
    assert ItemBytes(items[i], float64) == key + tag + value;
    Assoc(header, ItemsBytes(items[..i], float64), key + tag + value);
  }

  lemma Assoc(a: Bytes, b: Bytes, c: Bytes)
    ensures (a + b) + c == a + (b + c)
  {
  }

  lemma FlattenPush(parts: seq<Bytes>, a: Bytes, b: Bytes, c: Bytes)
    ensures Flatten(parts + [a, b, c]) == Flatten(parts) + (a + b + c)
  {
    FlattenAppend(parts, [a, b, c]);
    FlattenTriple(a, b, c);
  }

  lemma ItemsPrefixStep(items: seq<Item>, i: nat, float64: real -> Bytes8)
    requires i < |items|
    ensures ItemsBytes(items[..i + 1], float64) == ItemsBytes(items[..i], float64) + ItemBytes(items[i], float64)
  {
    assert items[..i + 1] == items[..i] + [items[i]];
    ItemsBytesSnoc(items[..i], items[i], float64);
  }
}
