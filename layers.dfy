/** Which layers the exported file holds and in what order (buildLayers and
    the build*Layer functions): the page image, the panel images, the
    panel frames, the bubble bodies, then one text layer per bubble that
    shows text.  What each canvas is drawn with is outside the model: the
    pixels of every layer's canvas are a parameter. */
module LayerPlan {
  import opened Bytes
  import opened Text
  import opened Raster
  import opened AutoWrap
  import opened TypeTool
  import opened InfoBlocks

  /** A speech bubble as the exporter reads it: its id, its box, its
      padding, its raw text and its font. */
  datatype Bubble = Bubble(id: string, x: real, y: real, width: real, height: real,
                           padding: real, rawText: string, style: TextStyle)

  /** The editor state the exporter reads: the canvas size, whether a page
      image is loaded (image.src), whether a page frame with a panel tree
      exists, the wrapping settings and the bubbles in their stored order. */
  datatype Page = Page(width: nat, height: nat, hasImage: bool, hasPanels: bool,
                       autoWrap: bool, charactersPerLine: real, bubbles: seq<Bubble>)

  /** What a layer's canvas is drawn from. */
  datatype Source = ImageSource | PanelImageSource | PanelFrameSource | BubbleSource | TextSource(bubble: Bubble)

  /** The text box inside a bubble (getTextRect). */
  datatype Box = Box(x: real, y: real, width: real, height: real)

  // ---------------------------------------------------------------------
  // Names and text
  // ---------------------------------------------------------------------

  const ImageLayerName: string := "\U{6F2B}\U{753B}\U{56FE}\U{7247}"        // page image
  const PanelImageLayerName: string := "\U{683C}\U{6846}\U{56FE}\U{7247}"   // panel images
  const PanelFrameLayerName: string := "\U{6F2B}\U{753B}\U{6846}"           // panel frames
  const BubbleLayerName: string := "\U{6CE1}\U{6CE1}"                       // bubbles
  const TextLayerPrefix: string := "\U{6587}\U{5B57}-"                      // text-

  function SourceName(s: Source): string
  {
    match s
    case ImageSource => ImageLayerName
    case PanelImageSource => PanelImageLayerName
    case PanelFrameSource => PanelFrameLayerName
    case BubbleSource => BubbleLayerName
    case TextSource(b) => TextLayerPrefix + b.id
  }

  /** getBubbleDisplayText under the page's wrapping settings. */
  function DisplayTextOf(page: Page, b: Bubble): string
  {
    DisplayText(b.rawText, page.autoWrap, page.charactersPerLine)
  }

  predicate Shown(page: Page, b: Bubble)
  {
    DisplayTextOf(page, b) != ""
  }

  // ---------------------------------------------------------------------
  // The text bounds
  // ---------------------------------------------------------------------

  function MaxReal(a: real, b: real): real
  {
    if a < b then b else a
  }

  /** getTextRect: the bubble inset by its padding (at least 20), and at
      least 20 wide and high. */
  function TextBox(b: Bubble): (r: Box)
    ensures r.width >= 20.0 && r.height >= 20.0
    ensures b.padding >= 20.0 ==> r.x == b.x + b.padding && r.y == b.y + b.padding
    ensures b.padding < 20.0 ==> r.x == b.x + 20.0 && r.y == b.y + 20.0
  {
    var padding := MaxReal(20.0, b.padding);
    Box(b.x + padding, b.y + padding, MaxReal(20.0, b.width - padding * 2.0), MaxReal(20.0, b.height - padding * 2.0))
  }

  /** Math.ceil */
  function Ceil(x: real): (r: int)
    ensures x <= r as real < x + 1.0
  {
    -((-x).Floor)
  }

  /** The text box in whole pixels: its edges rounded outwards and clamped
      to the canvas. */
  function TextRectPixels(page: Page, b: Bubble): (r: Rect)
    ensures 0 <= r.left <= r.right <= page.width
    ensures 0 <= r.top <= r.bottom <= page.height
    ensures var box := TextBox(b);
      && (0 <= box.x.Floor <= page.width ==> r.left == box.x.Floor)
      && (0 <= box.y.Floor <= page.height ==> r.top == box.y.Floor)
      && (0 <= Ceil(box.x + box.width) <= page.width ==> r.right == Ceil(box.x + box.width))
      && (0 <= Ceil(box.y + box.height) <= page.height ==> r.bottom == Ceil(box.y + box.height))
  {
    var box := TextBox(b);
    var r := Rect(Clamp(box.x.Floor, 0, page.width), Clamp(box.y.Floor, 0, page.height),
                  Clamp(Ceil(box.x + box.width), 0, page.width), Clamp(Ceil(box.y + box.height), 0, page.height));
    ClampMonotone(box.x.Floor, Ceil(box.x + box.width), 0, page.width);
    ClampMonotone(box.y.Floor, Ceil(box.y + box.height), 0, page.height);
    r
  }

  lemma ClampMonotone(a: int, b: int, lo: int, hi: int)
    requires a <= b && lo <= hi
    ensures Clamp(a, lo, hi) <= Clamp(b, lo, hi)
  {
  }

  // ---------------------------------------------------------------------
  // The plan
  // ---------------------------------------------------------------------

  /** The layers that do not depend on single bubbles, in the order
      buildLayers pushes them. */
  function FixedSources(page: Page): seq<Source>
  {
    (if page.hasImage then [ImageSource] else [])
      + (if page.hasPanels then [PanelImageSource, PanelFrameSource] else [])
      + (if |page.bubbles| > 0 then [BubbleSource] else [])
  }

  /** One text layer for every bubble with display text, in bubble order. */
  function TextSources(page: Page, bubbles: seq<Bubble>): (r: seq<Source>)
    ensures forall i :: 0 <= i < |r| ==> r[i].TextSource? && r[i].bubble in bubbles && Shown(page, r[i].bubble)
    ensures |r| <= |bubbles|
  {
    if bubbles == [] then []
    else
      var b := bubbles[|bubbles| - 1];
      TextSources(page, bubbles[..|bubbles| - 1]) + (if Shown(page, b) then [TextSource(b)] else [])
  }

  function Plan(page: Page): seq<Source>
  {
    FixedSources(page) + TextSources(page, page.bubbles)
  }

  /** The position of each kind of layer in the stack. */
  function Rank(s: Source): nat
  {
    match s
    case ImageSource => 0
    case PanelImageSource => 1
    case PanelFrameSource => 2
    case BubbleSource => 3
    case TextSource(_) => 4
  }

  /** The layers come in kind order: page image, panel images, panel
      frames, bubbles, texts. */
  lemma PlanOrdered(page: Page)
    ensures var plan := Plan(page);
      forall i, j :: 0 <= i < j < |plan| ==> Rank(plan[i]) < Rank(plan[j]) || plan[j].TextSource?
  {
    var plan := Plan(page);
    var fixed := FixedSources(page);
    forall i, j | 0 <= i < j < |plan|
      ensures Rank(plan[i]) < Rank(plan[j]) || plan[j].TextSource?
    {
      if j < |fixed| {
        FixedOrdered(page, i, j);
      }
    }
  }

  lemma FixedOrdered(page: Page, i: nat, j: nat)
    requires i < j < |FixedSources(page)|
    ensures Rank(FixedSources(page)[i]) < Rank(FixedSources(page)[j])
  {
  }

  /** Each layer other than the texts is there exactly when what it draws
      exists. */
  lemma PlanFixedMembers(page: Page)
    ensures ImageSource in Plan(page) <==> page.hasImage
    ensures PanelImageSource in Plan(page) <==> page.hasPanels
    ensures PanelFrameSource in Plan(page) <==> page.hasPanels
    ensures BubbleSource in Plan(page) <==> |page.bubbles| > 0
  {
    PlanSplit(page);
  }

  /** A bubble has a text layer exactly when it shows text. */
  lemma PlanTextMembers(page: Page)
    ensures forall b :: TextSource(b) in Plan(page) <==> b in page.bubbles && Shown(page, b)
  {
    forall b | b in page.bubbles && Shown(page, b)
      ensures TextSource(b) in TextSources(page, page.bubbles)
    {
      TextSourcesHas(page, page.bubbles, b);
    }
    PlanSplit(page);
  }

  /** The plan holds what the fixed part holds and what the text part holds;
      the text part holds only texts. */
  lemma PlanSplit(page: Page)
    ensures forall s :: s in Plan(page) <==> s in FixedSources(page) || s in TextSources(page, page.bubbles)
    ensures forall s :: s in TextSources(page, page.bubbles) ==> s.TextSource?
  {
  }

  lemma {:induction false} TextSourcesHas(page: Page, bubbles: seq<Bubble>, b: Bubble)
    requires b in bubbles && Shown(page, b)
    ensures TextSource(b) in TextSources(page, bubbles)
  {
    var n := |bubbles|;
    if bubbles[n - 1] != b {
      assert b in bubbles[..n - 1];
      TextSourcesHas(page, bubbles[..n - 1], b);
    }
  }

  // ---------------------------------------------------------------------
  // The layers
  // ---------------------------------------------------------------------

  /** Every canvas the exporter draws has the page's size. */
  ghost predicate PixelsFit(page: Page, pixels: Source -> Bytes)
  {
    forall s :: |pixels(s)| == 4 * (page.width * page.height)
  }

  function PageImage(page: Page, pixels: Source -> Bytes, s: Source): (img: Image)
    requires PixelsFit(page, pixels)
    ensures ValidImage(img)
  {
    Image(page.width, page.height, pixels(s))
  }

  /** The additional information blocks: a text layer carries its name
      block and its type-tool block; the others carry none. */
  function Additional(page: Page, s: Source, float64: real -> Bytes8, fixed2: real -> string): seq<Bytes>
  {
    match s
    case TextSource(b) => TextLayerInfo(SourceName(s), DisplayTextOf(page, b), b.style,
                                        TextRectPixels(page, b), float64, fixed2)
    case _ => []
  }

  function CanvasLayer(page: Page, pixels: Source -> Bytes, s: Source, additional: seq<Bytes>): Layer
    requires PixelsFit(page, pixels)
  {
    RasterLayer(SourceName(s), PageImage(page, pixels, s), additional)
  }

  /** The layer drawn from a source, with its blocks. */
  function LayerOf(page: Page, pixels: Source -> Bytes, s: Source,
                   float64: real -> Bytes8, fixed2: real -> string): Layer
    requires PixelsFit(page, pixels)
  {
    CanvasLayer(page, pixels, s, Additional(page, s, float64, fixed2))
  }

  /** Each element of a list, transformed one by one, in order. */
  function Map<A, B>(f: A -> B, xs: seq<A>): (r: seq<B>)
    ensures |r| == |xs|
    ensures forall i :: 0 <= i < |xs| ==> r[i] == f(xs[i])
  {
    if xs == [] then [] else Map(f, xs[..|xs| - 1]) + [f(xs[|xs| - 1])]
  }

  lemma MapSnoc<A, B>(f: A -> B, xs: seq<A>, x: A)
    ensures Map(f, xs + [x]) == Map(f, xs) + [f(x)]
  {
  }

  /** Drawing a source: its canvas as a raster layer with its blocks. */
  function Drawn(page: Page, pixels: Source -> Bytes, float64: real -> Bytes8, fixed2: real -> string): Source -> Layer
    requires PixelsFit(page, pixels)
  {
    s => LayerOf(page, pixels, s, float64, fixed2)
  }

  /** What buildLayers returns: the plan's sources drawn one by one, so the
      stack holds exactly the planned layers, in the planned order. */
  function Layers(page: Page, pixels: Source -> Bytes, float64: real -> Bytes8, fixed2: real -> string): seq<Layer>
    requires PixelsFit(page, pixels)
  {
    Map(Drawn(page, pixels, float64, fixed2), Plan(page))
  }

  /** A text source is drawn as its text layer. */
  lemma DrawnText(page: Page, pixels: Source -> Bytes, b: Bubble, float64: real -> Bytes8, fixed2: real -> string)
    requires PixelsFit(page, pixels)
    ensures Drawn(page, pixels, float64, fixed2)(TextSource(b)) == LayerOf(page, pixels, TextSource(b), float64, fixed2)
  {
  }

  /** A page-wide source is drawn with no blocks. */
  lemma DrawnFixed(page: Page, pixels: Source -> Bytes, s: Source, float64: real -> Bytes8, fixed2: real -> string)
    requires PixelsFit(page, pixels) && !s.TextSource?
    ensures Drawn(page, pixels, float64, fixed2)(s) == CanvasLayer(page, pixels, s, [])
  {
  }

  /** Each layer's record carries the layer's name as a Pascal string (its
      UTF-8 bytes, cut at 255) right after the record's fixed fields, then
      its additional information blocks. */
  lemma LayerNameReadBack(page: Page, pixels: Source -> Bytes, s: Source, float64: real -> Bytes8, fixed2: real -> string)
    requires PixelsFit(page, pixels)
    ensures var record := LayerOf(page, pixels, s, float64, fixed2).record;
      var name := Utf8(SourceName(s));
      && |record| >= 66
      && ReadPascal(record[66..]) == Some((name[..Min(255, |name|)], Flatten(Additional(page, s, float64, fixed2))))
  {
    var img := PageImage(page, pixels, s);
    var es := ChannelEntries(Planes(img.data, img.width * img.height));
    RasterRecordLayout(es, img.width, img.height, SourceName(s), Additional(page, s, float64, fixed2));
  }

  /** A bubble that shows text gets a text layer (PlanTextMembers) carrying two
      blocks: the Unicode name block and the type-tool block of the
      bubble's display text and pixel bounds. */
  lemma TextLayerBlocks(page: Page, b: Bubble, float64: real -> Bytes8, fixed2: real -> string)
    requires Shown(page, b)
    ensures var info := Additional(page, TextSource(b), float64, fixed2);
      && |info| == 2
      && info[0] == UnicodeNameBlock(TextLayerPrefix + b.id)
      && info[1] == TypeToolInfo(DisplayTextOf(page, b), b.style, TextRectPixels(page, b), float64, fixed2).value
  {
    AdditionalOfText(page, b, float64, fixed2);
    BlocksOf(Additional(page, TextSource(b), float64, fixed2), TextLayerPrefix + b.id,
             DisplayTextOf(page, b), b.style, TextRectPixels(page, b), float64, fixed2);
  }

  lemma LayerOfText(page: Page, pixels: Source -> Bytes, b: Bubble, float64: real -> Bytes8, fixed2: real -> string)
    requires PixelsFit(page, pixels)
    ensures LayerOf(page, pixels, TextSource(b), float64, fixed2)
         == RasterLayer(TextLayerPrefix + b.id, PageImage(page, pixels, TextSource(b)),
                        TextLayerInfo(TextLayerPrefix + b.id, DisplayTextOf(page, b), b.style, TextRectPixels(page, b), float64, fixed2))
  {
  }

  lemma AdditionalOfText(page: Page, b: Bubble, float64: real -> Bytes8, fixed2: real -> string)
    ensures Additional(page, TextSource(b), float64, fixed2)
         == TextLayerInfo(TextLayerPrefix + b.id, DisplayTextOf(page, b), b.style, TextRectPixels(page, b), float64, fixed2)
  {
  }

  lemma BlocksOf(info: seq<Bytes>, name: string, text: string, style: TextStyle, rect: Rect,
                 float64: real -> Bytes8, fixed2: real -> string)
    requires text != "" && info == TextLayerInfo(name, text, style, rect, float64, fixed2)
    ensures |info| == 2 && info[0] == UnicodeNameBlock(name)
    ensures info[1] == TypeToolInfo(text, style, rect, float64, fixed2).value
  {
    TextLayerInfoBlocks(name, text, style, rect, float64, fixed2);
  }

  // ---------------------------------------------------------------------
  // The build functions as written
  // ---------------------------------------------------------------------

  /** buildImageLayer: nothing without a page image. */
  method BuildImageLayer(page: Page, pixels: Source -> Bytes) returns (layer: Option<Layer>)
    requires PixelsFit(page, pixels)
    ensures layer == if page.hasImage then Some(CanvasLayer(page, pixels, ImageSource, [])) else None
  {
    if !page.hasImage {
      return None;
    }
    var l := BuildRasterLayer(ImageLayerName, PageImage(page, pixels, ImageSource), []);
    layer := Some(l);
  }

  /** buildPanelImageLayer: nothing without a page frame and panel tree. */
  method BuildPanelImageLayer(page: Page, pixels: Source -> Bytes) returns (layer: Option<Layer>)
    requires PixelsFit(page, pixels)
    ensures layer == if page.hasPanels then Some(CanvasLayer(page, pixels, PanelImageSource, [])) else None
  {
    if !page.hasPanels {
      return None;
    }
    var l := BuildRasterLayer(PanelImageLayerName, PageImage(page, pixels, PanelImageSource), []);
    layer := Some(l);
  }

  /** buildPanelFrameLayer: nothing without a page frame and panel tree. */
  method BuildPanelFrameLayer(page: Page, pixels: Source -> Bytes) returns (layer: Option<Layer>)
    requires PixelsFit(page, pixels)
    ensures layer == if page.hasPanels then Some(CanvasLayer(page, pixels, PanelFrameSource, [])) else None
  {
    if !page.hasPanels {
      return None;
    }
    var l := BuildRasterLayer(PanelFrameLayerName, PageImage(page, pixels, PanelFrameSource), []);
    layer := Some(l);
  }

  /** buildBubbleLayer: nothing without bubbles. */
  method BuildBubbleLayer(page: Page, pixels: Source -> Bytes) returns (layer: Option<Layer>)
    requires PixelsFit(page, pixels)
    ensures layer == if |page.bubbles| > 0 then Some(CanvasLayer(page, pixels, BubbleSource, [])) else None
  {
    if |page.bubbles| == 0 {
      return None;
    }
    var l := BuildRasterLayer(BubbleLayerName, PageImage(page, pixels, BubbleSource), []);
    layer := Some(l);
  }

  /** buildTextLayer: nothing when the bubble shows no text; otherwise a
      layer named after the bubble with its name and type-tool blocks. */
  method BuildTextLayer(page: Page, b: Bubble, pixels: Source -> Bytes,
                        float64: real -> Bytes8, fixed2: real -> string) returns (layer: Option<Layer>)
    requires PixelsFit(page, pixels)
    ensures layer == if Shown(page, b) then Some(LayerOf(page, pixels, TextSource(b), float64, fixed2)) else None
  {
    var displayText := GetBubbleDisplayText(b.rawText, page.autoWrap, page.charactersPerLine);
    if displayText == "" {
      return None;
    }
    LayerOfText(page, pixels, b, float64, fixed2);
    assert displayText == DisplayTextOf(page, b);
    var l := DrawTextLayer(TextLayerPrefix + b.id, DisplayTextOf(page, b), b.style, TextRectPixels(page, b),
                           PageImage(page, pixels, TextSource(b)), float64, fixed2);
    layer := Some(l);
  }

  /** The raster layer of a text canvas with its name and type-tool blocks. */
  method DrawTextLayer(name: string, text: string, style: TextStyle, textRectPixels: Rect, img: Image,
                       float64: real -> Bytes8, fixed2: real -> string) returns (l: Layer)
    requires ValidImage(img)
    ensures l == RasterLayer(name, img, TextLayerInfo(name, text, style, textRectPixels, float64, fixed2))
  {
    var additionalInfo := BuildTextLayerInfo(name, text, style, textRectPixels, float64, fixed2);
    l := BuildRasterLayer(name, img, additionalInfo);
  }

  /** buildLayers: the page-wide layers that exist, then the text layers in
      bubble order (Promise.all keeps the order of the map). */
  method BuildLayers(page: Page, pixels: Source -> Bytes, float64: real -> Bytes8, fixed2: real -> string)
    returns (layers: seq<Layer>)
    requires PixelsFit(page, pixels)
    ensures layers == Layers(page, pixels, float64, fixed2)
  {
    ghost var draw := Drawn(page, pixels, float64, fixed2);
    PlanPrefixes(page);
    layers := BuildFixedLayers(page, pixels, float64, fixed2);
    var i := 0;
    while i < |page.bubbles|
      invariant 0 <= i <= |page.bubbles|
      invariant layers == Map(draw, PlanPrefix(page, i))
    {
      layers := PushTextLayer(page, pixels, float64, fixed2, layers, i);
      i := i + 1;
    }
  }

  /** The plan up to bubble i: the page-wide sources and the text sources
      of the bubbles before i. */
  function PlanPrefix(page: Page, i: nat): seq<Source>
    requires i <= |page.bubbles|
  {
    FixedSources(page) + TextSources(page, page.bubbles[..i])
  }

  lemma PlanPrefixes(page: Page)
    ensures PlanPrefix(page, 0) == FixedSources(page)
    ensures PlanPrefix(page, |page.bubbles|) == Plan(page)
  {
    assert page.bubbles[..|page.bubbles|] == page.bubbles;
  }

  /** The text layer of bubble i, pushed when the bubble shows text. */
  method PushTextLayer(page: Page, pixels: Source -> Bytes, float64: real -> Bytes8, fixed2: real -> string,
                       layers: seq<Layer>, i: nat) returns (r: seq<Layer>)
    requires PixelsFit(page, pixels) && i < |page.bubbles|
    requires layers == Map(Drawn(page, pixels, float64, fixed2), PlanPrefix(page, i))
    ensures r == Map(Drawn(page, pixels, float64, fixed2), PlanPrefix(page, i + 1))
  {
    var b := page.bubbles[i];
    var textLayer := BuildTextLayer(page, b, pixels, float64, fixed2);
    DrawnText(page, pixels, b, float64, fixed2);
    PlanPrefixStep(page, i);
    r := PushPresent(layers, textLayer, Drawn(page, pixels, float64, fixed2),
                     PlanPrefix(page, i), TextSource(b), Shown(page, b));
  }

  /** One more bubble: its text source, if it shows text, goes last. */
  lemma PlanPrefixStep(page: Page, i: nat)
    requires i < |page.bubbles|
    ensures PlanPrefix(page, i + 1)
         == PlanPrefix(page, i) + if Shown(page, page.bubbles[i]) then [TextSource(page.bubbles[i])] else []
  {
    assert page.bubbles[..i + 1][..i] == page.bubbles[..i];
  }

  /** The page-wide layers, each pushed when its builder returns one. */
  method BuildFixedLayers(page: Page, pixels: Source -> Bytes, float64: real -> Bytes8, fixed2: real -> string)
    returns (layers: seq<Layer>)
    requires PixelsFit(page, pixels)
    ensures layers == Map(Drawn(page, pixels, float64, fixed2), FixedSources(page))
  {
    ghost var draw := Drawn(page, pixels, float64, fixed2);
    DrawnFixed(page, pixels, PanelFrameSource, float64, fixed2);
    DrawnFixed(page, pixels, BubbleSource, float64, fixed2);
    ghost var s2 := ImageSources(page);
    ghost var s3 := s2 + if page.hasPanels then [PanelFrameSource] else [];
    FixedSourcesSteps(page, s2, s3);
    layers := BuildImageLayers(page, pixels, float64, fixed2);
    var panelFrameLayer := BuildPanelFrameLayer(page, pixels);
    layers := PushPresent(layers, panelFrameLayer, draw, s2, PanelFrameSource, page.hasPanels);
    var bubbleLayer := BuildBubbleLayer(page, pixels);
    layers := PushPresent(layers, bubbleLayer, draw, s3, BubbleSource, |page.bubbles| > 0);
  }

  /** The sources of the first two builders: the page image and the panel images. */
  ghost function ImageSources(page: Page): seq<Source>
  {
    (if page.hasImage then [ImageSource] else []) + (if page.hasPanels then [PanelImageSource] else [])
  }

  /** The first two builders, each pushed when it returns a layer. */
  method BuildImageLayers(page: Page, pixels: Source -> Bytes, float64: real -> Bytes8, fixed2: real -> string)
    returns (layers: seq<Layer>)
    requires PixelsFit(page, pixels)
    ensures layers == Map(Drawn(page, pixels, float64, fixed2), ImageSources(page))
  {
    ghost var draw := Drawn(page, pixels, float64, fixed2);
    DrawnFixed(page, pixels, ImageSource, float64, fixed2);
    DrawnFixed(page, pixels, PanelImageSource, float64, fixed2);
    ghost var s0: seq<Source> := [];
    ghost var s1 := s0 + if page.hasImage then [ImageSource] else [];
    var imageLayer := BuildImageLayer(page, pixels);
    layers := PushPresent([], imageLayer, draw, s0, ImageSource, page.hasImage);
    var panelImageLayer := BuildPanelImageLayer(page, pixels);
    layers := PushPresent(layers, panelImageLayer, draw, s1, PanelImageSource, page.hasPanels);
  }

  lemma FixedSourcesSteps(page: Page, s2: seq<Source>, s3: seq<Source>)
    requires s2 == ImageSources(page)
    requires s3 == s2 + if page.hasPanels then [PanelFrameSource] else []
    ensures FixedSources(page) == s3 + if |page.bubbles| > 0 then [BubbleSource] else []
  {
  }

  /** A builder's result is pushed onto the stack when there is one: the
      stack stays the drawing of a list of sources, which grows by the
      source exactly when the builder returned a layer. */
  method PushPresent(layers: seq<Layer>, layer: Option<Layer>, ghost draw: Source -> Layer,
                     ghost sources: seq<Source>, ghost s: Source, ghost present: bool)
    returns (r: seq<Layer>)
    requires layers == Map(draw, sources)
    requires layer == if present then Some(draw(s)) else None
    ensures r == Map(draw, sources + if present then [s] else [])
  {
    r := layers;
    if layer.Some? {
      MapSnoc(draw, sources, s);
      r := r + [layer.value];
    } else {
      assert sources + [] == sources;
    }
  }
}
