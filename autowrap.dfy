/** Automatic line wrapping of bubble text for display (applyAutoWrap,
    getBubbleDisplayText).  Wrapping may add, drop or move line feeds but
    keeps every other character in order: a closing punctuation mark that
    would start a line is hung on the last non-empty line, across any line
    feeds before it, and an empty last line is dropped. */
module AutoWrap {
  import opened Text

  /** clamp(value, min, max) = Math.max(min, Math.min(max, value)). */
  function Clamp(value: int, lo: int, hi: int): (r: int)
    ensures lo <= hi ==> lo <= r <= hi
    ensures lo <= value <= hi ==> r == value
    ensures lo <= hi && value < lo ==> r == lo
    ensures lo <= hi && hi < value ==> r == hi
  {
    var upper := if hi < value then hi else value;
    if lo < upper then upper else lo
  }

  /** Math.floor(lineLength) || 5, clamped to 1..20: a width that floors to
      zero falls back to five. */
  function MaxPerLine(lineLength: real): (r: int)
    ensures 1 <= r <= 20
    ensures lineLength.Floor == 0 ==> r == 5
    ensures 1 <= lineLength.Floor <= 20 ==> r == lineLength.Floor
  {
    var n := lineLength.Floor;
    Clamp(if n == 0 then 5 else n, 1, 20)
  }

  /** TRAILING_PUNCTUATION: full-width and ASCII comma, full stop, ideographic
      comma, exclamation and question marks, semicolon and colon. */
  const TrailingPunctuation: set<char> :=
    {'\U{FF0C}', ',', '\U{3002}', '.', '\U{3001}', '\U{FF01}', '!', '\U{FF1F}', '?',
     '\U{FF1B}', ';', '\U{FF1A}', ':'}

  /** The characters of a line that count against the limit. */
  function Letters(s: string): nat
  {
    if s == [] then 0 else Letters(s[..|s| - 1]) + (if s[|s| - 1] in TrailingPunctuation then 0 else 1)
  }

  /** The text with its line feeds removed. */
  function StripNewlines(s: string): string
  {
    if s == [] then [] else StripNewlines(s[..|s| - 1]) + (if s[|s| - 1] == '\n' then [] else [s[|s| - 1]])
  }

  /** The lines written one after another, with no separator. */
  function Concat(lines: seq<string>): string
  {
    if lines == [] then [] else Concat(lines[..|lines| - 1]) + lines[|lines| - 1]
  }

  // ---------------------------------------------------------------------
  // The wrapping, one character at a time
  // ---------------------------------------------------------------------

  /** The loop state of applyAutoWrap: finished lines, the open line, and
      the letters on the open line. */
  datatype WrapState = WrapState(lines: seq<string>, current: string, count: nat)

  /** The index of the last non-empty line, or -1. */
  function LastNonEmpty(lines: seq<string>): (r: int)
    ensures -1 <= r < |lines|
    ensures r >= 0 ==> lines[r] != ""
    ensures forall k :: r < k < |lines| ==> lines[k] == ""
  {
    if lines == [] then -1
    else if lines[|lines| - 1] != "" then |lines| - 1
    else LastNonEmpty(lines[..|lines| - 1])
  }

  /** One character: a line feed closes the open line; punctuation on an
      empty open line goes to the last non-empty line (or opens the line
      when there is none); any other character first closes a full line. */
  function Step(st: WrapState, c: char, maxPerLine: int): WrapState
  {
    if c == '\n' then WrapState(st.lines + [st.current], "", 0)
    else if c in TrailingPunctuation then
      if st.current == "" then
        var j := LastNonEmpty(st.lines);
        if j >= 0 then WrapState(st.lines[j := st.lines[j] + [c]], st.current, st.count)
        else WrapState(st.lines, st.current + [c], st.count)
      else WrapState(st.lines, st.current + [c], st.count)
    else if st.count >= maxPerLine then WrapState(st.lines + [st.current], [c], 1)
    else WrapState(st.lines, st.current + [c], st.count + 1)
  }

  function Fold(text: string, maxPerLine: int): WrapState
  {
    if text == [] then WrapState([], "", 0)
    else Step(Fold(text[..|text| - 1], maxPerLine), text[|text| - 1], maxPerLine)
  }

  /** The lines of the wrapped text: the open line is kept when non-empty. */
  function WrapLines(text: string, lineLength: real): seq<string>
  {
    var st := Fold(text, MaxPerLine(lineLength));
    if st.current != "" then st.lines + [st.current] else st.lines
  }

  /** applyAutoWrap: the lines joined with line feeds. */
  function Wrapped(text: string, lineLength: real): string
  {
    if text == "" then "" else JoinLines(WrapLines(text, lineLength))
  }

  /** getBubbleDisplayText: the raw text, wrapped when wrapping is on. */
  function DisplayText(raw: string, autoWrap: bool, charactersPerLine: real): string
  {
    if raw == "" then "" else if !autoWrap then raw else Wrapped(raw, charactersPerLine)
  }

  // ---------------------------------------------------------------------
  // What wrapping keeps
  // ---------------------------------------------------------------------

  /** The loop invariant: no line holds a line feed or more than maxPerLine
      letters, the count is the open line's letters, and the lines followed
      by the open line spell the text read so far without its line feeds. */
  ghost predicate Inv(st: WrapState, prefix: string, maxPerLine: int)
  {
    && (forall k :: 0 <= k < |st.lines| ==> NoChar(st.lines[k], '\n') && Letters(st.lines[k]) <= maxPerLine)
    && NoChar(st.current, '\n')
    && st.count == Letters(st.current) <= maxPerLine
    && Concat(st.lines) + st.current == StripNewlines(prefix)
  }

  lemma {:induction false} FoldInv(text: string, maxPerLine: int)
    requires maxPerLine >= 1
    ensures Inv(Fold(text, maxPerLine), text, maxPerLine)
  {
    if text != [] {
      var n := |text|;
      FoldInv(text[..n - 1], maxPerLine);
      assert text == text[..n - 1] + [text[n - 1]];
      StepInv(Fold(text[..n - 1], maxPerLine), text[..n - 1], text[n - 1], maxPerLine);
    }
  }

  lemma StepInv(st: WrapState, prefix: string, c: char, maxPerLine: int)
    requires maxPerLine >= 1 && Inv(st, prefix, maxPerLine)
    ensures Inv(Step(st, c, maxPerLine), prefix + [c], maxPerLine)
  {
    var p := prefix + [c];
    assert p[..|p| - 1] == prefix;
    if c == '\n' {
      assert StripNewlines(p) == StripNewlines(prefix);
      CloseLine(st.lines, st.current, maxPerLine);
    } else if c in TrailingPunctuation && st.current == "" && LastNonEmpty(st.lines) >= 0 {
      var j := LastNonEmpty(st.lines);
      ConcatAttach(st.lines, j, c);
      HangOn(st.lines, j, c, maxPerLine);
    } else {
      assert StripNewlines(p) == StripNewlines(prefix) + [c];
      StepOpenLine(st, prefix, c, maxPerLine);
    }
  }

  /** A character that lands on the open line. */
  lemma StepOpenLine(st: WrapState, prefix: string, c: char, maxPerLine: int)
    requires maxPerLine >= 1 && Inv(st, prefix, maxPerLine) && c != '\n'
    requires !(c in TrailingPunctuation && st.current == "" && LastNonEmpty(st.lines) >= 0)
    ensures Inv(Step(st, c, maxPerLine), prefix + [c], maxPerLine)
  {
    var p := prefix + [c];
    assert p[..|p| - 1] == prefix;
    assert StripNewlines(p) == StripNewlines(prefix) + [c];
    if c !in TrailingPunctuation && st.count >= maxPerLine {
      CloseLine(st.lines, st.current, maxPerLine);
      Extend("", c);
    } else {
      Extend(st.current, c);
    }
  }

  /** Closing the open line keeps the lines' invariant and their text. */
  lemma CloseLine(lines: seq<string>, current: string, maxPerLine: int)
    requires forall k :: 0 <= k < |lines| ==> NoChar(lines[k], '\n') && Letters(lines[k]) <= maxPerLine
    requires NoChar(current, '\n') && Letters(current) <= maxPerLine
    ensures var next := lines + [current];
      && (forall k :: 0 <= k < |next| ==> NoChar(next[k], '\n') && Letters(next[k]) <= maxPerLine)
      && Concat(next) == Concat(lines) + current
  {
    assert (lines + [current])[..|lines|] == lines;
  }

  /** Punctuation hung on a line keeps it free of line feeds and adds no
      letter. */
  lemma HangOn(lines: seq<string>, j: nat, c: char, maxPerLine: int)
    requires j < |lines| && c in TrailingPunctuation
    requires forall k :: 0 <= k < |lines| ==> NoChar(lines[k], '\n') && Letters(lines[k]) <= maxPerLine
    ensures var next := lines[j := lines[j] + [c]];
      forall k :: 0 <= k < |next| ==> NoChar(next[k], '\n') && Letters(next[k]) <= maxPerLine
  {
    HangChar(lines[j], c);
    var next := lines[j := lines[j] + [c]];
    forall k | 0 <= k < |next|
      ensures NoChar(next[k], '\n') && Letters(next[k]) <= maxPerLine
    {
      if k != j {
        assert next[k] == lines[k];
      }
    }
  }

  lemma HangChar(line: string, c: char)
    requires c in TrailingPunctuation && NoChar(line, '\n')
    ensures NoChar(line + [c], '\n') && Letters(line + [c]) == Letters(line)
  {
    assert (line + [c])[..|line|] == line;
  }

  /** Appending a character other than a line feed to the open line. */
  lemma Extend(current: string, c: char)
    requires c != '\n' && NoChar(current, '\n')
    ensures NoChar(current + [c], '\n')
    ensures Letters(current + [c]) == Letters(current) + (if c in TrailingPunctuation then 0 else 1)
  {
    assert (current + [c])[..|current|] == current;
  }

  /** Hanging a character on the last non-empty line, with only empty lines
      after it and nothing open, appends it to the concatenation. */
  lemma {:induction false} ConcatAttach(lines: seq<string>, j: nat, c: char)
    requires j < |lines| && forall k :: j < k < |lines| ==> lines[k] == ""
    ensures Concat(lines[j := lines[j] + [c]]) == Concat(lines) + [c]
  {
    var n := |lines|;
    var next := lines[j := lines[j] + [c]];
    assert next[..n - 1] == if j == n - 1 then lines[..n - 1] else lines[..n - 1][j := lines[j] + [c]];
    if j < n - 1 {
      ConcatAttach(lines[..n - 1], j, c);
    }
  }

  lemma {:induction false} StripAppend(a: string, b: string)
    ensures StripNewlines(a + b) == StripNewlines(a) + StripNewlines(b)
  {
    if b != [] {
      var n := |b|;
      assert (a + b)[..|a + b| - 1] == a + b[..n - 1];
      StripAppend(a, b[..n - 1]);
    } else {
      assert a + b == a;
    }
  }

  lemma {:induction false} StripNoNewline(s: string)
    requires NoChar(s, '\n')
    ensures StripNewlines(s) == s
  {
    if s != [] {
      StripNoNewline(s[..|s| - 1]);
    }
  }

  /** Joining lines without line feeds and then removing the line feeds
      leaves their concatenation. */
  lemma {:induction false} JoinStrip(lines: seq<string>)
    requires forall k :: 0 <= k < |lines| ==> NoChar(lines[k], '\n')
    ensures StripNewlines(JoinLines(lines)) == Concat(lines)
  {
    var n := |lines|;
    if n == 1 {
      StripNoNewline(lines[0]);
      assert Concat(lines) == Concat([]) + lines[0];
    } else if n > 1 {
      JoinStrip(lines[..n - 1]);
      StripAppend(JoinLines(lines[..n - 1]) + "\n", lines[n - 1]);
      StripAppend(JoinLines(lines[..n - 1]), "\n");
      StripNoNewline(lines[n - 1]);
      assert StripNewlines("\n") == [];
    }
  }

  /** Every line of the wrapped text is free of line feeds and holds at most
      maxPerLine letters; the wrapped text is exactly those lines joined. */
  lemma WrappedLines(text: string, lineLength: real)
    ensures var lines := WrapLines(text, lineLength);
      && Wrapped(text, lineLength) == JoinLines(lines)
      && forall k :: 0 <= k < |lines| ==> NoChar(lines[k], '\n') && Letters(lines[k]) <= MaxPerLine(lineLength)
  {
    FoldInv(text, MaxPerLine(lineLength));
  }

  /** Wrapping changes only line feeds: with the line feeds removed, the
      wrapped text is the input with its line feeds removed. */
  lemma WrappedKeepsText(text: string, lineLength: real)
    ensures StripNewlines(Wrapped(text, lineLength)) == StripNewlines(text)
  {
    var m := MaxPerLine(lineLength);
    var st := Fold(text, m);
    FoldInv(text, m);
    var lines := WrapLines(text, lineLength);
    JoinStrip(lines);
    if st.current != "" {
      assert lines[..|lines| - 1] == st.lines;
    }
  }

  /** The displayed text spells the raw text, line feeds aside. */
  lemma DisplayKeepsText(raw: string, autoWrap: bool, charactersPerLine: real)
    ensures StripNewlines(DisplayText(raw, autoWrap, charactersPerLine)) == StripNewlines(raw)
  {
    if raw != "" && autoWrap {
      WrappedKeepsText(raw, charactersPerLine);
    }
  }

  // ---------------------------------------------------------------------
  // applyAutoWrap as written
  // ---------------------------------------------------------------------

  method ApplyAutoWrap(text: string, lineLength: real) returns (r: string)
    ensures r == Wrapped(text, lineLength)
  {
    if text == "" {
      return "";
    }
    var maxPerLine := MaxPerLine(lineLength);
    var lines: seq<string> := [];
    var current: string := "";
    var count: nat := 0;
    var i := 0;
    while i < |text|
      invariant 0 <= i <= |text|
      invariant WrapState(lines, current, count) == Fold(text[..i], maxPerLine)
    {
      var c := text[i];
      assert text[..i + 1][..i] == text[..i];
      if c == '\n' {
        lines := lines + [current];
        current := "";
        count := 0;
      } else if c in TrailingPunctuation {
        if current == "" {
          var attached := false;
          var index := |lines| - 1;
          while index >= 0
            invariant -1 <= index < |lines|
            invariant !attached
            invariant forall k :: index < k < |lines| ==> lines[k] == ""
          {
            if lines[index] != "" {
              assert LastNonEmpty(lines) == index;
              lines := lines[index := lines[index] + [c]];
              attached := true;
              break;
            }
            index := index - 1;
          }
          if !attached {
            assert LastNonEmpty(lines) == -1;
            current := current + [c];
          }
        } else {
          current := current + [c];
        }
      } else {
        if count >= maxPerLine {
          lines := lines + [current];
          current := "";
          count := 0;
        }
        current := current + [c];
        count := count + 1;
      }
      i := i + 1;
    }
    assert text[..|text|] == text;
    if current != "" {
      lines := lines + [current];
    }
    r := JoinLines(lines);
  }

  /** getBubbleDisplayText: empty text stays empty, and the text is wrapped
      only when wrapping is on. */
  method GetBubbleDisplayText(raw: string, autoWrap: bool, charactersPerLine: real) returns (r: string)
    ensures r == DisplayText(raw, autoWrap, charactersPerLine)
  {
    if raw == "" {
      return "";
    }
    if !autoWrap {
      return raw;
    }
    r := ApplyAutoWrap(raw, charactersPerLine);
  }
}
