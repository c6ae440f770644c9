/** Caret positions between the displayed (wrapped) text and the raw text
    (rawIndexFromDisplay, displayIndexFromRaw).  Both walk the displayed
    text by UTF-16 code unit and count the units that are not line feeds,
    since wrapping changes only line feeds and keeps every other unit in
    order. */
module Caret {
  import opened Text

  const LineFeed: CodeUnit := 0x0A

  /** The units of a text that are not line feeds. */
  function NonNewlines(u: seq<CodeUnit>): nat
  {
    if u == [] then 0 else NonNewlines(u[..|u| - 1]) + (if u[|u| - 1] == LineFeed then 0 else 1)
  }

  /** rawIndexFromDisplay: the units before the display index, the index
      taken between 0 and the length, that are not line feeds. */
  function RawIndex(text: seq<CodeUnit>, displayIndex: int): (r: nat)
    ensures r <= NonNewlines(text)
  {
    var d := if displayIndex < 0 then 0 else if displayIndex > |text| then |text| else displayIndex;
    PrefixMonotone(text, d, |text|);
    assert text[..|text|] == text;
    NonNewlines(text[..d])
  }

  /** The position right after the k-th unit that is not a line feed. */
  function Position(text: seq<CodeUnit>, k: nat): (p: nat)
    requires 1 <= k <= NonNewlines(text)
    ensures 1 <= p <= |text| && text[p - 1] != LineFeed
    ensures NonNewlines(text[..p]) == k
  {
    var n := |text|;
    var init := text[..n - 1];
    if k <= NonNewlines(init) then
      var p := Position(init, k);
      assert init[..p] == text[..p];
      p
    else
      assert text[..n] == text;
      n
  }

  /** displayIndexFromRaw: 0 for a raw index of 0 or less, the position
      after that many non-line-feed units, or the text's length when there
      are fewer. */
  function DisplayIndex(text: seq<CodeUnit>, rawIndex: int): (r: nat)
    ensures r <= |text|
  {
    if rawIndex <= 0 then 0
    else if rawIndex > NonNewlines(text) then |text|
    else Position(text, rawIndex)
  }

  // ---------------------------------------------------------------------
  // The round trips
  // ---------------------------------------------------------------------

  lemma {:induction false} PrefixMonotone(text: seq<CodeUnit>, a: nat, b: nat)
    requires a <= b <= |text|
    ensures NonNewlines(text[..a]) <= NonNewlines(text[..b])
  {
    if a < b {
      PrefixMonotone(text, a, b - 1);
      assert text[..b][..b - 1] == text[..b - 1];
    }
  }

  lemma PrefixStep(text: seq<CodeUnit>, i: nat)
    requires i < |text|
    ensures NonNewlines(text[..i + 1]) == NonNewlines(text[..i]) + (if text[i] == LineFeed then 0 else 1)
  {
    assert text[..i + 1][..i] == text[..i];
  }

  /** No earlier position has counted k units yet. */
  lemma PositionLeast(text: seq<CodeUnit>, k: nat, q: nat)
    requires 1 <= k <= NonNewlines(text) && q < Position(text, k)
    ensures NonNewlines(text[..q]) < k
  {
    var p := Position(text, k);
    PrefixMonotone(text, q, p - 1);
    PrefixStep(text, p - 1);
  }

  /** The position after the k-th unit is the only one that has counted k
      units and follows a unit that is not a line feed. */
  lemma PositionUnique(text: seq<CodeUnit>, k: nat, p: nat)
    requires 1 <= p <= |text| && text[p - 1] != LineFeed && NonNewlines(text[..p]) == k
    ensures 1 <= k <= NonNewlines(text)
    ensures Position(text, k) == p
  {
    PrefixMonotone(text, p, |text|);
    assert text[..|text|] == text;
    PrefixStep(text, p - 1);
    var q := Position(text, k);
    if q < p {
      PrefixMonotone(text, q, p - 1);
    } else if p < q {
      PositionLeast(text, k, p);
    }
  }

  /** Raw to display and back: the raw index comes back, capped at the
      number of units that are not line feeds. */
  lemma RawDisplayRaw(text: seq<CodeUnit>, rawIndex: int)
    requires rawIndex >= 0
    ensures RawIndex(text, DisplayIndex(text, rawIndex))
      == if rawIndex < NonNewlines(text) then rawIndex else NonNewlines(text)
  {
    assert text[..|text|] == text;
  }

  /** Display to raw and back: the caret moves back over any line feeds
      just before it, and stays put when it follows another unit. */
  lemma DisplayRawDisplay(text: seq<CodeUnit>, displayIndex: nat)
    requires displayIndex <= |text|
    ensures DisplayIndex(text, RawIndex(text, displayIndex)) <= displayIndex
    ensures displayIndex == 0 || text[displayIndex - 1] != LineFeed
      ==> DisplayIndex(text, RawIndex(text, displayIndex)) == displayIndex
  {
    var k := NonNewlines(text[..displayIndex]);
    PrefixMonotone(text, displayIndex, |text|);
    assert text[..|text|] == text;
    if k >= 1 {
      var p := Position(text, k);
      if displayIndex < p {
        PositionLeast(text, k, displayIndex);
      }
      if text[displayIndex - 1] != LineFeed {
        PositionUnique(text, k, displayIndex);
      }
    }
  }

  // ---------------------------------------------------------------------
  // The loops as written
  // ---------------------------------------------------------------------

  method RawIndexFromDisplay(text: seq<CodeUnit>, displayIndex: int) returns (raw: nat)
    ensures raw == RawIndex(text, displayIndex)
  {
    raw := 0;
    var i := 0;
    while i < displayIndex && i < |text|
      invariant 0 <= i <= |text| && (displayIndex >= 0 ==> i <= displayIndex)
      invariant displayIndex < 0 ==> i == 0
      invariant raw == NonNewlines(text[..i])
    {
      PrefixStep(text, i);
      if text[i] != LineFeed {
        raw := raw + 1;
      }
      i := i + 1;
    }
  }

  method DisplayIndexFromRaw(text: seq<CodeUnit>, rawIndex: int) returns (r: nat)
    ensures r == DisplayIndex(text, rawIndex)
  {
    if rawIndex <= 0 {
      return 0;
    }
    var raw := 0;
    var i := 0;
    while i < |text|
      invariant 0 <= i <= |text|
      invariant raw == NonNewlines(text[..i]) < rawIndex
    {
      PrefixStep(text, i);
      if text[i] != LineFeed {
        raw := raw + 1;
        if raw == rawIndex {
          PositionUnique(text, rawIndex, i + 1);
          return i + 1;
        }
      }
      i := i + 1;
    }
    assert text[..|text|] == text;
    r := |text|;
  }
}
