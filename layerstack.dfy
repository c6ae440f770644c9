/*
 * The editor's layer stack (app.js): `state.layers` is an ordered list of
 * `{type, id}` entries, bottom first, kept in step with `state.panels` and
 * `state.bubbles`. The DOM side (elements, handles, buttons) is not modelled,
 * except for the z-index written on each element, which is kept as a map
 * from the entry that denotes the element to the number written.
 */
module LayerStack {
  import opened Text

  /** The `type` of a layer entry. */
  datatype Kind = PanelKind | BubbleKind

  /** One entry of `state.layers`. */
  datatype LayerRef = LayerRef(kind: Kind, id: string)

  datatype Point = Point(x: real, y: real)

  /** A panel: its id and its polygon (image placement is not modelled). */
  datatype Panel = Panel(id: string, points: seq<Point>)

  /** A speech bubble, reduced to its id. */
  datatype Bubble = Bubble(id: string)

  datatype Mode = View | Cut

  function PanelId(p: Panel): string { p.id }

  function BubbleId(b: Bubble): string { b.id }

  // ---------------------------------------------------------------------
  // Numbers
  // ---------------------------------------------------------------------

  /** `Math.max(min, Math.min(max, value))`: when the bounds cross, `min` wins. */
  function ClampNumber(value: real, min: real, max: real): (r: real)
    ensures min <= r
    ensures min <= max ==> r <= max
    ensures min <= value <= max ==> r == value
    ensures value <= min ==> r == min
    ensures min <= max <= value ==> r == max
    ensures max < min ==> r == min
  {
    var low := if max < value then max else value;
    if min < low then low else min
  }

  /** The position at which a new entry goes: `layerIndex` clamped into 0..length. */
  function InsertIndex(layerIndex: int, length: nat): (r: nat)
    ensures r <= length
    ensures 0 <= layerIndex <= length ==> r == layerIndex
    ensures layerIndex < 0 ==> r == 0
    ensures length < layerIndex ==> r == length
  {
    var low := if layerIndex < length then layerIndex else length;
    if 0 < low then low else 0
  }

  // ---------------------------------------------------------------------
  // Searching and editing lists
  // ---------------------------------------------------------------------

  /** `Array.prototype.findIndex`: the first index satisfying `p`, or -1. */
  function FindIndex<T>(s: seq<T>, p: T -> bool): (r: int)
    ensures -1 <= r < |s|
    ensures 0 <= r ==> p(s[r])
    ensures forall j :: 0 <= j < |s| && (r < 0 || j < r) ==> !p(s[j])
  {
    if |s| == 0 then -1
    else if p(s[0]) then 0
    else
      var k := FindIndex(s[1..], p);
      assert forall j :: 1 <= j < |s| ==> s[j] == s[1..][j - 1];
      if k < 0 then -1 else k + 1
  }

  /** The ids of a list of panels or bubbles, in order. */
  function Ids<T>(s: seq<T>, key: T -> string): (ids: seq<string>)
    ensures |ids| == |s|
    ensures forall i :: 0 <= i < |s| ==> ids[i] == key(s[i])
  {
    seq(|s|, i requires 0 <= i < |s| => key(s[i]))
  }

  /** `findIndex` by id: the position of the first element with the id, or -1. */
  function IndexById<T>(s: seq<T>, key: T -> string, id: string): (i: int)
    ensures -1 <= i < |s|
    ensures i < 0 <==> id !in Ids(s, key)
    ensures 0 <= i ==> key(s[i]) == id && forall j :: 0 <= j < i ==> key(s[j]) != id
  {
    FindIndex(s, (x: T) => key(x) == id)
  }

  /** `Array.prototype.find` by id. */
  function FindById<T>(s: seq<T>, key: T -> string, id: string): (r: Option<T>)
    ensures r.Some? <==> id in Ids(s, key)
    ensures r.Some? ==> r.value in s && key(r.value) == id
  {
    var i := IndexById(s, key, id);
    if i < 0 then None else Some(s[i])
  }

  /** `findIndex` by id, then `splice(index, 1)` when found. */
  function DropById<T>(s: seq<T>, key: T -> string, id: string): (r: seq<T>)
    ensures id !in Ids(s, key) ==> r == s
    ensures id in Ids(s, key) ==> |r| == |s| - 1
  {
    var i := IndexById(s, key, id);
    if i < 0 then s else s[..i] + s[i + 1..]
  }

  predicate Distinct<T(==)>(s: seq<T>) {
    forall i, j :: 0 <= i < j < |s| ==> s[i] != s[j]
  }

  predicate Matches(r: LayerRef, kind: Kind, id: string) {
    r.kind == kind && r.id == id
  }

  /** `layers.filter(layer => !(layer.type === kind && layer.id === id))`. */
  function Without(s: seq<LayerRef>, kind: Kind, id: string): seq<LayerRef>
  {
    if |s| == 0 then []
    else Without(s[..|s| - 1], kind, id) + if Matches(s[|s| - 1], kind, id) then [] else [s[|s| - 1]]
  }

  /** `splice(i, 0, x)`. */
  function InsertAt<T>(s: seq<T>, i: nat, x: T): (r: seq<T>)
    requires i <= |s|
    ensures |r| == |s| + 1 && r[i] == x
    ensures forall j :: 0 <= j < i ==> r[j] == s[j]
    ensures forall j :: i < j <= |s| ==> r[j] == s[j - 1]
  {
    s[..i] + [x] + s[i..]
  }

  /** `splice(i, 1)`. */
  function RemoveAt<T>(s: seq<T>, i: nat): (r: seq<T>)
    requires i < |s|
    ensures |r| == |s| - 1
    ensures forall j :: 0 <= j < i ==> r[j] == s[j]
    ensures forall j :: i <= j < |r| ==> r[j] == s[j + 1]
  {
    s[..i] + s[i + 1..]
  }

  /** The two splices of `moveLayer` once `to` is in range. */
  function Moved<T>(s: seq<T>, from: nat, to: nat): seq<T>
    requires from < |s| && to < |s|
  {
    InsertAt(RemoveAt(s, from), to, s[from])
  }

  // ---------------------------------------------------------------------
  // Properties of the list edits
  // ---------------------------------------------------------------------

  /** Filtering removes exactly the entries of that type and id. */
  lemma {:induction false} WithoutMembers(s: seq<LayerRef>, kind: Kind, id: string)
    ensures |Without(s, kind, id)| <= |s|
    ensures forall x :: x in Without(s, kind, id) <==> x in s && !Matches(x, kind, id)
    decreases |s|
  {
    if |s| > 0 {
      var init := s[..|s| - 1];
      WithoutMembers(init, kind, id);
      assert s == init + [s[|s| - 1]];
    }
  }

  lemma {:induction false} WithoutAppend(a: seq<LayerRef>, b: seq<LayerRef>, kind: Kind, id: string)
    ensures Without(a + b, kind, id) == Without(a, kind, id) + Without(b, kind, id)
    decreases |b|
  {
    if |b| == 0 {
      assert a + b == a;
    } else {
      var b' := b[..|b| - 1];
      assert (a + b)[..|a + b| - 1] == a + b';
      assert (a + b)[|a + b| - 1] == b[|b| - 1];
      WithoutAppend(a, b', kind, id);
    }
  }

  /** Filtering keeps the surviving entries in their order: with no match, nothing changes. */
  lemma {:induction false} WithoutNoMatch(s: seq<LayerRef>, kind: Kind, id: string)
    requires forall i :: 0 <= i < |s| ==> !Matches(s[i], kind, id)
    ensures Without(s, kind, id) == s
    decreases |s|
  {
    if |s| > 0 {
      WithoutNoMatch(s[..|s| - 1], kind, id);
    }
  }

  /** Filtering a list whose only match sits at k removes exactly that entry. */
  lemma WithoutOnly(s: seq<LayerRef>, k: nat, kind: Kind, id: string)
    requires k < |s| && Matches(s[k], kind, id)
    requires forall i :: 0 <= i < |s| && i != k ==> !Matches(s[i], kind, id)
    ensures Without(s, kind, id) == RemoveAt(s, k)
  {
    var front := s[..k + 1];
    var back := s[k + 1..];
    assert s == front + back;
    WithoutAppend(front, back, kind, id);
    assert front[..|front| - 1] == s[..k];
    assert Without(front, kind, id) == Without(s[..k], kind, id);
    WithoutNoMatch(s[..k], kind, id);
    WithoutNoMatch(back, kind, id);
  }

  lemma {:induction false} WithoutDistinct(s: seq<LayerRef>, kind: Kind, id: string)
    requires Distinct(s)
    ensures Distinct(Without(s, kind, id))
    decreases |s|
  {
    if |s| > 0 {
      var init := s[..|s| - 1];
      WithoutDistinct(init, kind, id);
      WithoutMembers(init, kind, id);
      if !Matches(s[|s| - 1], kind, id) {
        DistinctSnoc(Without(init, kind, id), s[|s| - 1]);
      }
    }
  }

  lemma DistinctSnoc<T>(s: seq<T>, x: T)
    requires Distinct(s) && x !in s
    ensures Distinct(s + [x])
  {
    forall i, j | 0 <= i < j < |s + [x]|
      ensures (s + [x])[i] != (s + [x])[j]
    {
      if j == |s| {
        assert s[i] in s;
      }
    }
  }

  lemma InsertAtMembers<T>(s: seq<T>, i: nat, x: T)
    requires i <= |s|
    ensures forall y :: y in InsertAt(s, i, x) <==> y in s || y == x
    ensures multiset(InsertAt(s, i, x)) == multiset(s) + multiset{x}
  {
    var r := InsertAt(s, i, x);
    assert r == s[..i] + [x] + s[i..];
    assert s == s[..i] + s[i..];
    assert multiset(s) == multiset(s[..i]) + multiset(s[i..]);
  }

  lemma InsertAtDistinct<T>(s: seq<T>, i: nat, x: T)
    requires i <= |s| && Distinct(s) && x !in s
    ensures Distinct(InsertAt(s, i, x))
  {
    var r := InsertAt(s, i, x);
    forall a, b | 0 <= a < b < |r|
      ensures r[a] != r[b]
    {
      if a == i {
        assert r[b] == s[b - 1];
      } else if b == i {
        assert r[a] == s[a];
      } else {
        var a' := if a < i then a else a - 1;
        var b' := if b < i then b else b - 1;
        assert r[a] == s[a'] && r[b] == s[b'] && a' < b';
      }
    }
  }

  lemma RemoveAtMembers<T>(s: seq<T>, i: nat)
    requires i < |s|
    ensures multiset(s) == multiset(RemoveAt(s, i)) + multiset{s[i]}
    ensures Distinct(s) ==> Distinct(RemoveAt(s, i))
    ensures Distinct(s) ==> forall y :: y in RemoveAt(s, i) <==> y in s && y != s[i]
  {
    var r := RemoveAt(s, i);
    assert s == s[..i] + [s[i]] + s[i + 1..];
    assert r == s[..i] + s[i + 1..];
    if Distinct(s) {
      forall a, b | 0 <= a < b < |r|
        ensures r[a] != r[b]
      {
        var a' := if a < i then a else a + 1;
        var b' := if b < i then b else b + 1;
        assert r[a] == s[a'] && r[b] == s[b'] && a' < b';
      }
      forall y | y in r
        ensures y != s[i]
      {
        var k :| 0 <= k < |r| && r[k] == y;
        var k' := if k < i then k else k + 1;
        assert s[k'] == y && k' != i;
      }
    }
  }

  /**
   * `moveLayer` on valid indices: the same entries (a permutation), the moved
   * entry at `to`, and the other entries in their old relative order.
   */
  lemma MovedIsPermutation<T>(s: seq<T>, from: nat, to: nat)
    requires from < |s| && to < |s|
    ensures |Moved(s, from, to)| == |s|
    ensures multiset(Moved(s, from, to)) == multiset(s)
    ensures Moved(s, from, to)[to] == s[from]
    ensures RemoveAt(Moved(s, from, to), to) == RemoveAt(s, from)
  {
    var rest := RemoveAt(s, from);
    RemoveAtMembers(s, from);
    InsertAtMembers(rest, to, s[from]);
    var r := Moved(s, from, to);
    assert RemoveAt(r, to) == rest;
  }

  lemma InsertRemoveAt<T>(s: seq<T>, i: nat)
    requires i < |s|
    ensures InsertAt(RemoveAt(s, i), i, s[i]) == s
  {
  }

  /** Moving an entry and moving it back restores the list (the up and down buttons undo each other). */
  lemma MoveBack<T>(s: seq<T>, from: nat, to: nat)
    requires from < |s| && to < |s|
    ensures Moved(Moved(s, from, to), to, from) == s
  {
    var r := Moved(s, from, to);
    MovedIsPermutation(s, from, to);
    assert Moved(r, to, from) == InsertAt(RemoveAt(s, from), from, s[from]);
    InsertRemoveAt(s, from);
  }

  lemma MovedMembers<T>(s: seq<T>, from: nat, to: nat)
    requires from < |s| && to < |s|
    ensures forall y :: y in Moved(s, from, to) <==> y in s
    ensures Distinct(s) ==> Distinct(Moved(s, from, to))
  {
    var rest := RemoveAt(s, from);
    RemoveAtMembers(s, from);
    InsertAtMembers(rest, to, s[from]);
    MovedIsPermutation(s, from, to);
    forall y
      ensures y in Moved(s, from, to) <==> y in s
    {
      calc {
        y in Moved(s, from, to);
        multiset(Moved(s, from, to))[y] > 0;
        multiset(s)[y] > 0;
        y in s;
      }
    }
    if Distinct(s) {
      InsertAtDistinct(rest, to, s[from]);
    }
  }

  lemma DropByIdMembers<T>(s: seq<T>, key: T -> string, id: string)
    requires Distinct(Ids(s, key))
    ensures Distinct(Ids(DropById(s, key, id), key))
    ensures forall x :: x in Ids(DropById(s, key, id), key) <==> x in Ids(s, key) && x != id
  {
    var i := IndexById(s, key, id);
    if 0 <= i {
      var ids := Ids(s, key);
      RemoveAtMembers(ids, i);
      assert Ids(DropById(s, key, id), key) == RemoveAt(ids, i);
    }
  }

  lemma IdsSnoc<T>(s: seq<T>, key: T -> string, x: T)
    ensures Ids(s + [x], key) == Ids(s, key) + [key(x)]
  {
  }

  // ---------------------------------------------------------------------
  // The layer list in step with the panels and bubbles
  // ---------------------------------------------------------------------

  /** The panel or bubble an entry refers to exists. */
  predicate Listed(r: LayerRef, panels: seq<Panel>, bubbles: seq<Bubble>) {
    match r.kind
    case PanelKind => r.id in Ids(panels, PanelId)
    case BubbleKind => r.id in Ids(bubbles, BubbleId)
  }

  /**
   * What the editor maintains: no entry twice, unique ids, every entry
   * refers to an existing panel or bubble, and every panel and bubble has
   * its entry.
   */
  predicate InStep(layers: seq<LayerRef>, panels: seq<Panel>, bubbles: seq<Bubble>) {
    && Distinct(layers)
    && Distinct(Ids(panels, PanelId))
    && Distinct(Ids(bubbles, BubbleId))
    && (forall r :: r in layers ==> Listed(r, panels, bubbles))
    && (forall id :: id in Ids(panels, PanelId) ==> LayerRef(PanelKind, id) in layers)
    && (forall id :: id in Ids(bubbles, BubbleId) ==> LayerRef(BubbleKind, id) in layers)
  }

  /** `removePanelById` keeps the lists in step. */
  lemma RemovePanelInStep(layers: seq<LayerRef>, panels: seq<Panel>, bubbles: seq<Bubble>, id: string)
    requires InStep(layers, panels, bubbles)
    ensures InStep(Without(layers, PanelKind, id), DropById(panels, PanelId, id), bubbles)
  {
    WithoutDistinct(layers, PanelKind, id);
    WithoutMembers(layers, PanelKind, id);
    DropByIdMembers(panels, PanelId, id);
  }

  /** `deleteBubbleById` keeps the lists in step. */
  lemma RemoveBubbleInStep(layers: seq<LayerRef>, panels: seq<Panel>, bubbles: seq<Bubble>, id: string)
    requires InStep(layers, panels, bubbles)
    ensures InStep(Without(layers, BubbleKind, id), panels, DropById(bubbles, BubbleId, id))
  {
    WithoutDistinct(layers, BubbleKind, id);
    WithoutMembers(layers, BubbleKind, id);
    DropByIdMembers(bubbles, BubbleId, id);
  }

  /** `createPanel` with a fresh id keeps the lists in step, wherever the entry goes. */
  lemma CreatePanelInStep(layers: seq<LayerRef>, panels: seq<Panel>, bubbles: seq<Bubble>, panel: Panel, at: nat)
    requires InStep(layers, panels, bubbles) && panel.id !in Ids(panels, PanelId) && at <= |layers|
    ensures InStep(InsertAt(layers, at, LayerRef(PanelKind, panel.id)), panels + [panel], bubbles)
  {
    var entry := LayerRef(PanelKind, panel.id);
    assert !Listed(entry, panels, bubbles);
    InsertAtDistinct(layers, at, entry);
    InsertAtMembers(layers, at, entry);
    IdsSnoc(panels, PanelId, panel);
    DistinctSnoc(Ids(panels, PanelId), panel.id);
  }

  /** `addBubble` with a fresh id keeps the lists in step. */
  lemma AddBubbleInStep(layers: seq<LayerRef>, panels: seq<Panel>, bubbles: seq<Bubble>, bubble: Bubble)
    requires InStep(layers, panels, bubbles) && bubble.id !in Ids(bubbles, BubbleId)
    ensures InStep(layers + [LayerRef(BubbleKind, bubble.id)], panels, bubbles + [bubble])
  {
    var entry := LayerRef(BubbleKind, bubble.id);
    assert !Listed(entry, panels, bubbles);
    DistinctSnoc(layers, entry);
    IdsSnoc(bubbles, BubbleId, bubble);
    DistinctSnoc(Ids(bubbles, BubbleId), bubble.id);
  }

  /** `moveLayer` keeps the lists in step. */
  lemma MoveInStep(layers: seq<LayerRef>, panels: seq<Panel>, bubbles: seq<Bubble>, from: nat, to: nat)
    requires InStep(layers, panels, bubbles) && from < |layers| && to < |layers|
    ensures InStep(Moved(layers, from, to), panels, bubbles)
  {
    MovedMembers(layers, from, to);
  }

  // ---------------------------------------------------------------------
  // Where a cut puts the two new panels
  // ---------------------------------------------------------------------

  /**
   * The layer index chosen when a cut starts: the entry of the panel being
   * cut, or with no panel the first bubble entry (the list length when there
   * is none); a missing panel entry gives 0.
   */
  function CutLayerIndex(layers: seq<LayerRef>, basePanel: Option<string>): (r: nat)
    ensures r <= |layers|
    ensures basePanel.Some? && LayerRef(PanelKind, basePanel.value) in layers ==>
      r < |layers| && layers[r] == LayerRef(PanelKind, basePanel.value)
      && forall j :: 0 <= j < r ==> layers[j] != layers[r]
    ensures basePanel.Some? && LayerRef(PanelKind, basePanel.value) !in layers ==> r == 0
    ensures basePanel.None? ==>
      (forall j :: 0 <= j < r ==> layers[j].kind == PanelKind) && (r < |layers| ==> layers[r].kind == BubbleKind)
  {
    var found :=
      if basePanel.Some? then FindIndex(layers, (l: LayerRef) => Matches(l, PanelKind, basePanel.value))
      else
        var bubbleIndex := FindIndex(layers, (l: LayerRef) => l.kind == BubbleKind);
        if bubbleIndex == -1 then |layers| else bubbleIndex;
    if found < 0 then 0 else found
  }

  /** The list after a split: the cut panel's entries filtered out, two new entries inserted side by side. */
  function SplitLayers(layers: seq<LayerRef>, layerIndex: int, basePanel: Option<string>, first: string, second: string): seq<LayerRef>
  {
    var kept := if basePanel.Some? then Without(layers, PanelKind, basePanel.value) else layers;
    var at := InsertIndex(InsertIndex(layerIndex, |layers|), |kept|);
    kept[..at] + [LayerRef(PanelKind, first), LayerRef(PanelKind, second)] + kept[at..]
  }

  lemma NextIndex(insertIndex: nat, length: nat)
    ensures InsertIndex(insertIndex + 1, length + 1) == InsertIndex(insertIndex, length) + 1
  {
  }

  lemma InsertTwice<T>(s: seq<T>, at: nat, a: T, b: T)
    requires at <= |s|
    ensures InsertAt(InsertAt(s, at, a), at + 1, b) == s[..at] + [a, b] + s[at..]
  {
    var once := InsertAt(s, at, a);
    assert once[..at + 1] == s[..at] + [a];
    assert once[at + 1..] == s[at..];
  }

  /**
   * Cutting a panel whose entry sits at k, at the index the cut chose:
   * the two halves take the place of that entry, first below second, and
   * every other entry stays where it was.
   */
  lemma SplitReplacesEntry(layers: seq<LayerRef>, id: string, first: string, second: string)
    requires Distinct(layers) && LayerRef(PanelKind, id) in layers
    ensures var k := CutLayerIndex(layers, Some(id));
      SplitLayers(layers, k, Some(id), first, second)
        == layers[..k] + [LayerRef(PanelKind, first), LayerRef(PanelKind, second)] + layers[k + 1..]
  {
    var k := CutLayerIndex(layers, Some(id));
    forall i | 0 <= i < |layers| && i != k
      ensures !Matches(layers[i], PanelKind, id)
    {
    }
    WithoutOnly(layers, k, PanelKind, id);
    var kept := RemoveAt(layers, k);
    assert kept[..k] == layers[..k];
    assert kept[k..] == layers[k + 1..];
  }

  /**
   * Drawing a new split with no panel under it: the two panels go above all
   * panel entries that precede the first bubble, and below that bubble.
   */
  lemma SplitBelowBubbles(layers: seq<LayerRef>, first: string, second: string)
    ensures var k := CutLayerIndex(layers, None);
      && SplitLayers(layers, k, None, first, second)
        == layers[..k] + [LayerRef(PanelKind, first), LayerRef(PanelKind, second)] + layers[k..]
      && (forall j :: 0 <= j < k ==> layers[j].kind == PanelKind)
      && (k < |layers| ==> layers[k].kind == BubbleKind)
  {
  }

  // ---------------------------------------------------------------------
  // Hit testing and z-order
  // ---------------------------------------------------------------------

  /** Entry i is a panel entry whose panel exists and contains the point. */
  predicate Hit(layers: seq<LayerRef>, panels: seq<Panel>, i: nat, pt: Point, inside: (Point, seq<Point>) -> bool)
    requires i < |layers|
  {
    var p := FindById(panels, PanelId, layers[i].id);
    layers[i].kind == PanelKind && p.Some? && inside(pt, p.value.points)
  }

  /**
   * The position of the topmost hit entry among the first n, or -1: no
   * entry above it is hit, and -1 only when no entry at all is.
   */
  function TopIndex(layers: seq<LayerRef>, panels: seq<Panel>, n: nat, pt: Point, inside: (Point, seq<Point>) -> bool): (r: int)
    requires n <= |layers|
    ensures -1 <= r < n
    ensures 0 <= r ==> Hit(layers, panels, r, pt, inside)
    ensures forall j :: r < j < n ==> !Hit(layers, panels, j, pt, inside)
  {
    if n == 0 then -1
    else if Hit(layers, panels, n - 1, pt, inside) then n - 1
    else TopIndex(layers, panels, n - 1, pt, inside)
  }

  /** The panel `findPanelAtPoint` returns: the one the topmost hit entry names. */
  function TopHit(layers: seq<LayerRef>, panels: seq<Panel>, pt: Point, inside: (Point, seq<Point>) -> bool): Option<Panel>
  {
    var i := TopIndex(layers, panels, |layers|, pt, inside);
    if i < 0 then None else FindById(panels, PanelId, layers[i].id)
  }

  /** An entry denotes an element that exists, so `applyLayerZIndices` writes its z-index. */
  predicate Present(r: LayerRef, panels: seq<Panel>, bubbles: seq<Bubble>) {
    match r.kind
    case PanelKind => FindById(panels, PanelId, r.id).Some?
    case BubbleKind => FindById(bubbles, BubbleId, r.id).Some?
  }

  /** The z-indices written for the first n entries: 10 + position, later writes winning. */
  function ZIndices(layers: seq<LayerRef>, panels: seq<Panel>, bubbles: seq<Bubble>, n: nat): map<LayerRef, int>
    requires n <= |layers|
  {
    if n == 0 then map[]
    else if Present(layers[n - 1], panels, bubbles) then ZIndices(layers, panels, bubbles, n - 1)[layers[n - 1] := 10 + (n - 1)]
    else ZIndices(layers, panels, bubbles, n - 1)
  }

  lemma ZIndicesStep(m: map<LayerRef, int>, layers: seq<LayerRef>, panels: seq<Panel>, bubbles: seq<Bubble>, i: nat)
    requires i < |layers|
    ensures m + ZIndices(layers, panels, bubbles, i + 1) ==
      if Present(layers[i], panels, bubbles) then (m + ZIndices(layers, panels, bubbles, i))[layers[i] := 10 + i]
      else m + ZIndices(layers, panels, bubbles, i)
  {
    if Present(layers[i], panels, bubbles) {
      MergeUpdate(m, ZIndices(layers, panels, bubbles, i), layers[i], 10 + i);
    }
  }

  lemma MergeUpdate<K, V>(m: map<K, V>, z: map<K, V>, k: K, v: V)
    ensures (m + z)[k := v] == m + z[k := v]
  {
  }

  /** Every present entry among the first n gets a z-index, and nothing else does. */
  lemma {:induction false} ZIndicesKeys(layers: seq<LayerRef>, panels: seq<Panel>, bubbles: seq<Bubble>, n: nat)
    requires n <= |layers|
    ensures forall r :: r in ZIndices(layers, panels, bubbles, n) <==> r in layers[..n] && Present(r, panels, bubbles)
  {
    if n > 0 {
      ZIndicesKeys(layers, panels, bubbles, n - 1);
      assert layers[..n] == layers[..n - 1] + [layers[n - 1]];
    }
  }

  /** With no entry twice, the present entry at position i gets 10 + i. */
  lemma {:induction false} ZIndicesOfEntries(layers: seq<LayerRef>, panels: seq<Panel>, bubbles: seq<Bubble>, n: nat)
    requires n <= |layers| && Distinct(layers)
    ensures forall i :: 0 <= i < n && Present(layers[i], panels, bubbles) ==>
      layers[i] in ZIndices(layers, panels, bubbles, n) && ZIndices(layers, panels, bubbles, n)[layers[i]] == 10 + i
  {
    if n > 0 {
      ZIndicesOfEntries(layers, panels, bubbles, n - 1);
      forall i | 0 <= i < n - 1 && Present(layers[i], panels, bubbles)
        ensures layers[i] in ZIndices(layers, panels, bubbles, n) && ZIndices(layers, panels, bubbles, n)[layers[i]] == 10 + i
      {
        assert layers[i] != layers[n - 1];
      }
    }
  }

  /** With no entry twice, z-order strictly increases up the list. */
  lemma ZOrderIncreases(layers: seq<LayerRef>, panels: seq<Panel>, bubbles: seq<Bubble>, i: nat, j: nat)
    requires Distinct(layers) && i < j < |layers|
    requires Present(layers[i], panels, bubbles) && Present(layers[j], panels, bubbles)
    ensures var z := ZIndices(layers, panels, bubbles, |layers|);
      layers[i] in z && layers[j] in z && z[layers[i]] < z[layers[j]]
  {
    ZIndicesOfEntries(layers, panels, bubbles, |layers|);
  }

  /** With the lists in step, every entry is present, so re-stacking gives entry i exactly 10 + i. */
  lemma InStepZIndices(layers: seq<LayerRef>, panels: seq<Panel>, bubbles: seq<Bubble>)
    requires InStep(layers, panels, bubbles)
    ensures forall i :: 0 <= i < |layers| ==>
      layers[i] in ZIndices(layers, panels, bubbles, |layers|) && ZIndices(layers, panels, bubbles, |layers|)[layers[i]] == 10 + i
  {
    forall i | 0 <= i < |layers|
      ensures Present(layers[i], panels, bubbles)
    {
      assert Listed(layers[i], panels, bubbles);
    }
    ZIndicesOfEntries(layers, panels, bubbles, |layers|);
  }

  /** Writing the same z-indices twice is writing them once. */
  lemma MergeAgain<K, V>(m: map<K, V>, z: map<K, V>)
    ensures (m + z) + z == m + z
  {
  }

  // ---------------------------------------------------------------------
  // The editor state
  // ---------------------------------------------------------------------

  class Editor {
    var layers: seq<LayerRef>
    var panels: seq<Panel>
    var bubbles: seq<Bubble>
    var selectedPanelId: Option<string>
    var selectedBubbleId: Option<string>
    var mode: Mode
    /** The z-index last written on the element each entry denotes. */
    var zIndex: map<LayerRef, int>

    ghost predicate Valid()
      reads this
    {
      InStep(layers, panels, bubbles)
    }

    /** The element of entry i stands at z-index 10 + i, as the list says. */
    ghost predicate Stacked()
      reads this
    {
      forall i :: 0 <= i < |layers| ==> layers[i] in zIndex && zIndex[layers[i]] == 10 + i
    }

    /** The initial state: nothing on the page, nothing selected, viewing. */
    constructor ()
      ensures layers == [] && panels == [] && bubbles == []
      ensures selectedPanelId == None && selectedBubbleId == None && mode == View && zIndex == map[]
      ensures Valid()
    {
      layers := [];
      panels := [];
      bubbles := [];
      selectedPanelId := None;
      selectedBubbleId := None;
      mode := View;
      zIndex := map[];
    }

    /**
     * `createPanel`: the panel is appended and its entry inserted at the
     * clamped index; unless both options are off the layers are refreshed,
     * and selecting the panel clears the bubble selection and leaves cut mode.
     */
    method CreatePanel(panel: Panel, layerIndex: int, select: bool, refresh: bool)
      modifies this
      ensures panels == old(panels) + [panel] && bubbles == old(bubbles)
      ensures layers == InsertAt(old(layers), InsertIndex(layerIndex, |old(layers)|), LayerRef(PanelKind, panel.id))
      ensures select ==> selectedPanelId == Some(panel.id) && selectedBubbleId == None && mode == View
      ensures !select ==> selectedPanelId == old(selectedPanelId) && selectedBubbleId == old(selectedBubbleId) && mode == old(mode)
      ensures zIndex == if select || refresh then old(zIndex) + ZIndices(layers, panels, bubbles, |layers|) else old(zIndex)
      ensures old(Valid()) && panel.id !in Ids(old(panels), PanelId) ==> Valid()
      ensures old(Valid()) && panel.id !in Ids(old(panels), PanelId) && (select || refresh) ==> Stacked()
    {
      if old(Valid()) && panel.id !in Ids(old(panels), PanelId) {
        CreatePanelInStep(layers, panels, bubbles, panel, InsertIndex(layerIndex, |layers|));
      }
      panels := panels + [panel];
      var insertIndex := InsertIndex(layerIndex, |layers|);
      layers := InsertAt(layers, insertIndex, LayerRef(PanelKind, panel.id));
      if refresh {
        RefreshLayers();
      }
      if select {
        SelectPanel(panel.id);
        if refresh {
          MergeAgain(old(zIndex), ZIndices(layers, panels, bubbles, |layers|));
        }
      }
    }

    /** `addBubble`: the bubble and its entry go on top, the layers are refreshed and the bubble is selected. */
    method AddBubble(bubble: Bubble)
      modifies this
      ensures bubbles == old(bubbles) + [bubble] && layers == old(layers) + [LayerRef(BubbleKind, bubble.id)]
      ensures panels == old(panels)
      ensures selectedBubbleId == Some(bubble.id) && selectedPanelId == None && mode == View
      ensures zIndex == old(zIndex) + ZIndices(layers, panels, bubbles, |layers|)
      ensures old(Valid()) && bubble.id !in Ids(old(bubbles), BubbleId) ==> Valid() && Stacked()
    {
      if old(Valid()) && bubble.id !in Ids(old(bubbles), BubbleId) {
        AddBubbleInStep(layers, panels, bubbles, bubble);
      }
      bubbles := bubbles + [bubble];
      layers := layers + [LayerRef(BubbleKind, bubble.id)];
      RefreshLayers();
      SelectBubble(bubble.id);
      MergeAgain(old(zIndex), ZIndices(layers, panels, bubbles, |layers|));
    }

    /** `removePanelById`: drop the first panel with the id and every panel entry with it. */
    method RemovePanelById(id: string)
      modifies this
      ensures panels == DropById(old(panels), PanelId, id)
      ensures layers == Without(old(layers), PanelKind, id)
      ensures bubbles == old(bubbles) && selectedPanelId == old(selectedPanelId)
      ensures selectedBubbleId == old(selectedBubbleId) && mode == old(mode) && zIndex == old(zIndex)
      ensures old(Valid()) ==> Valid()
    {
      if old(Valid()) {
        RemovePanelInStep(layers, panels, bubbles, id);
      }
      var index := IndexById(panels, PanelId, id);
      if index >= 0 {
        panels := panels[..index] + panels[index + 1..];
      }
      layers := Without(layers, PanelKind, id);
    }

    /**
     * `deletePanelById`: for a non-empty id, as removal, also clearing the
     * selection when it was this panel, then the layers are refreshed.
     */
    method DeletePanelById(id: string)
      modifies this
      ensures id == "" ==> panels == old(panels) && layers == old(layers) && selectedPanelId == old(selectedPanelId)
      ensures id == "" ==> zIndex == old(zIndex)
      ensures id != "" ==> panels == DropById(old(panels), PanelId, id) && layers == Without(old(layers), PanelKind, id)
      ensures id != "" ==> selectedPanelId == if old(selectedPanelId) == Some(id) then None else old(selectedPanelId)
      ensures id != "" ==> zIndex == old(zIndex) + ZIndices(layers, panels, bubbles, |layers|)
      ensures bubbles == old(bubbles) && selectedBubbleId == old(selectedBubbleId) && mode == old(mode)
      ensures old(Valid()) ==> Valid()
      ensures old(Valid()) && id != "" ==> Stacked()
    {
      if id == "" {
        return;
      }
      RemovePanelById(id);
      if selectedPanelId == Some(id) {
        selectedPanelId := None;
      }
      RefreshLayers();
    }

    /** `deleteBubbleById`: the same for bubbles and the bubble selection. */
    method DeleteBubbleById(id: string)
      modifies this
      ensures id == "" ==> bubbles == old(bubbles) && layers == old(layers) && selectedBubbleId == old(selectedBubbleId)
      ensures id == "" ==> zIndex == old(zIndex)
      ensures id != "" ==> bubbles == DropById(old(bubbles), BubbleId, id) && layers == Without(old(layers), BubbleKind, id)
      ensures id != "" ==> selectedBubbleId == if old(selectedBubbleId) == Some(id) then None else old(selectedBubbleId)
      ensures id != "" ==> zIndex == old(zIndex) + ZIndices(layers, panels, bubbles, |layers|)
      ensures panels == old(panels) && selectedPanelId == old(selectedPanelId) && mode == old(mode)
      ensures old(Valid()) ==> Valid()
      ensures old(Valid()) && id != "" ==> Stacked()
    {
      if id == "" {
        return;
      }
      if Valid() {
        RemoveBubbleInStep(layers, panels, bubbles, id);
      }
      var index := IndexById(bubbles, BubbleId, id);
      if index >= 0 {
        bubbles := bubbles[..index] + bubbles[index + 1..];
      }
      layers := Without(layers, BubbleKind, id);
      if selectedBubbleId == Some(id) {
        selectedBubbleId := None;
      }
      RefreshLayers();
    }

    /**
     * `moveLayer`: a target outside the list changes nothing; otherwise the
     * entry moves to `to` and the layers are refreshed, so its element is
     * re-stacked at the z-index of its new position.
     */
    method MoveLayer(from: int, to: int)
      requires 0 <= from < |layers|
      modifies this
      ensures layers == if to < 0 || to >= |old(layers)| then old(layers) else Moved(old(layers), from, to)
      ensures panels == old(panels) && bubbles == old(bubbles) && selectedPanelId == old(selectedPanelId)
      ensures selectedBubbleId == old(selectedBubbleId) && mode == old(mode)
      ensures zIndex == if to < 0 || to >= |old(layers)| then old(zIndex) else old(zIndex) + ZIndices(layers, panels, bubbles, |layers|)
      ensures old(Valid()) ==> Valid()
      ensures old(Valid()) && 0 <= to < |old(layers)| ==> Stacked()
      ensures old(Valid()) && 0 <= to < |old(layers)| ==> old(layers)[from] in zIndex && zIndex[old(layers)[from]] == 10 + to
    {
      if to < 0 || to >= |layers| {
        return;
      }
      if Valid() {
        MoveInStep(layers, panels, bubbles, from, to);
      }
      MovedIsPermutation(layers, from, to);
      var item := layers[from];
      layers := RemoveAt(layers, from);
      layers := InsertAt(layers, to, item);
      RefreshLayers();
    }

    /**
     * `applySplitGeometry`: remove the cut panel, clear both selections,
     * insert the two halves at the chosen index and the one above it, stay
     * in cut mode and refresh the layers.
     */
    method ApplySplitGeometry(layerIndex: int, basePanel: Option<string>, first: Panel, second: Panel)
      modifies this
      ensures layers == SplitLayers(old(layers), layerIndex, basePanel, first.id, second.id)
      ensures panels == (if basePanel.Some? then DropById(old(panels), PanelId, basePanel.value) else old(panels)) + [first, second]
      ensures bubbles == old(bubbles) && zIndex == old(zIndex) + ZIndices(layers, panels, bubbles, |layers|)
      ensures selectedPanelId == None && selectedBubbleId == None && mode == Cut
      ensures var kept := if basePanel.Some? then DropById(old(panels), PanelId, basePanel.value) else old(panels);
        old(Valid()) && first.id != second.id && first.id !in Ids(kept, PanelId) && second.id !in Ids(kept, PanelId) ==>
        Valid() && Stacked()
    {
      var insertIndex := InsertIndex(layerIndex, |layers|);
      if basePanel.Some? {
        RemovePanelById(basePanel.value);
      }
      selectedPanelId := None;
      selectedBubbleId := None;
      PlaceHalves(first, second, insertIndex);
      mode := Cut;
      RefreshLayers();
    }

    /** The two `createPanel` calls of a split: each clamps its own index, so the halves land side by side. */
    method PlaceHalves(first: Panel, second: Panel, insertIndex: nat)
      modifies this
      ensures var at := InsertIndex(insertIndex, |old(layers)|);
        layers == old(layers)[..at] + [LayerRef(PanelKind, first.id), LayerRef(PanelKind, second.id)] + old(layers)[at..]
      ensures panels == old(panels) + [first, second]
      ensures bubbles == old(bubbles) && zIndex == old(zIndex) && mode == old(mode)
      ensures selectedPanelId == old(selectedPanelId) && selectedBubbleId == old(selectedBubbleId)
      ensures old(Valid()) && first.id != second.id && first.id !in Ids(old(panels), PanelId) && second.id !in Ids(old(panels), PanelId) ==>
        Valid()
    {
      NextIndex(insertIndex, |layers|);
      InsertTwice(layers, InsertIndex(insertIndex, |layers|), LayerRef(PanelKind, first.id), LayerRef(PanelKind, second.id));
      IdsSnoc(panels, PanelId, first);
      CreatePanel(first, insertIndex, false, false);
      CreatePanel(second, insertIndex + 1, false, false);
    }

    /** `findPanelAtPoint`: scan from the top entry down for a panel containing the point. */
    method FindPanelAtPoint(pt: Point, inside: (Point, seq<Point>) -> bool) returns (found: Option<Panel>)
      ensures found == TopHit(layers, panels, pt, inside)
    {
      var i := |layers| - 1;
      while i >= 0
        invariant -1 <= i < |layers|
        invariant TopIndex(layers, panels, |layers|, pt, inside) == TopIndex(layers, panels, i + 1, pt, inside)
      {
        var layer := layers[i];
        if layer.kind == PanelKind {
          var panel := FindById(panels, PanelId, layer.id);
          if panel.Some? && inside(pt, panel.value.points) {
            return panel;
          }
        }
        i := i - 1;
      }
      return None;
    }

    /** `applyLayerZIndices`: the element of entry i gets z-index 10 + i, when it exists. */
    method ApplyLayerZIndices()
      modifies this
      ensures zIndex == old(zIndex) + ZIndices(layers, panels, bubbles, |layers|)
      ensures layers == old(layers) && panels == old(panels) && bubbles == old(bubbles)
      ensures selectedPanelId == old(selectedPanelId) && selectedBubbleId == old(selectedBubbleId) && mode == old(mode)
    {
      var i := 0;
      while i < |layers|
        invariant 0 <= i <= |layers|
        invariant layers == old(layers) && panels == old(panels) && bubbles == old(bubbles)
        invariant selectedPanelId == old(selectedPanelId) && selectedBubbleId == old(selectedBubbleId) && mode == old(mode)
        invariant zIndex == old(zIndex) + ZIndices(layers, panels, bubbles, i)
      {
        var layer := layers[i];
        var z := 10 + i;
        ZIndicesStep(old(zIndex), layers, panels, bubbles, i);
        if layer.kind == PanelKind {
          var panel := FindById(panels, PanelId, layer.id);
          if panel.Some? {
            zIndex := zIndex[layer := z];
          }
        } else {
          var bubble := FindById(bubbles, BubbleId, layer.id);
          if bubble.Some? {
            zIndex := zIndex[layer := z];
          }
        }
        i := i + 1;
      }
    }

    /**
     * `refreshLayers`: the list in the layer panel is rebuilt (not
     * modelled), then the z-indices are applied; with the lists in step
     * every element ends up stacked as the list says.
     */
    method RefreshLayers()
      modifies this
      ensures zIndex == old(zIndex) + ZIndices(layers, panels, bubbles, |layers|)
      ensures layers == old(layers) && panels == old(panels) && bubbles == old(bubbles)
      ensures selectedPanelId == old(selectedPanelId) && selectedBubbleId == old(selectedBubbleId) && mode == old(mode)
      ensures Valid() ==> Stacked()
    {
      ApplyLayerZIndices();
      if Valid() {
        InStepZIndices(layers, panels, bubbles);
      }
    }

    /** `selectPanel`: the panel becomes the selection, the bubble selection is cleared, cut mode ends, and the layers are refreshed. */
    method SelectPanel(id: string)
      modifies this
      ensures selectedPanelId == Some(id) && selectedBubbleId == None && mode == View
      ensures layers == old(layers) && panels == old(panels) && bubbles == old(bubbles)
      ensures zIndex == old(zIndex) + ZIndices(layers, panels, bubbles, |layers|)
      ensures Valid() ==> Stacked()
    {
      selectedPanelId := Some(id);
      selectedBubbleId := None;
      mode := View;
      RefreshLayers();
    }

    /** `selectBubble`: the same for a bubble, clearing the panel selection. */
    method SelectBubble(id: string)
      modifies this
      ensures selectedBubbleId == Some(id) && selectedPanelId == None && mode == View
      ensures layers == old(layers) && panels == old(panels) && bubbles == old(bubbles)
      ensures zIndex == old(zIndex) + ZIndices(layers, panels, bubbles, |layers|)
      ensures Valid() ==> Stacked()
    {
      selectedBubbleId := Some(id);
      selectedPanelId := None;
      mode := View;
      RefreshLayers();
    }
  }
}
