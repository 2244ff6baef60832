/**
 * `beautify_doc_string`: the clean-up rustdoc applies to the text of a doc
 * comment. A leading line of stars and a trailing non-empty line of stars are
 * dropped, and when every line carries the same left margin ending in a `*`
 * that margin (and, in a block comment, the star) is removed.
 */
module Beautify {
  import opened Wrappers
  import opened Seqs
  import opened Text
  import EditCrateDocs

  type CommentKind = EditCrateDocs.CommentKind

  const Newline: char := '\n'
  const Return: char := '\r'

  /** A space or a tab: the characters of `"* \t"` other than the star. */
  predicate IsBlank(c: char)
  {
    c == ' ' || c == '\t'
  }

  predicate AllStars(line: string)
  {
    forall k :: 0 <= k < |line| ==> line[k] == '*'
  }

  /** What was removed from `line` to leave `out` is a prefix of spaces, tabs and stars. */
  predicate Undecorated(line: string, out: string)
  {
    EndsWith(line, out) && forall k :: 0 <= k < |line| - |out| ==> IsBlank(line[k]) || line[k] == '*'
  }

  // ----- vertical trim -----

  /** The lines `start..end` that are kept. */
  datatype Range = Range(start: nat, end: nat)

  /** `get_vertical_trim`: drop a first line of stars (even an empty one) and a last non-empty line of stars. */
  function VerticalTrim(lines: seq<string>): (r: Option<Range>)
    ensures r.None? <==>
      (lines == [] || (!AllStars(lines[0]) && (lines[|lines| - 1] == [] || !AllStars(lines[|lines| - 1]))))
    ensures r.Some? ==> r.value.start <= r.value.end <= |lines| && r.value.start <= 1 && |lines| - r.value.end <= 1
    ensures r.Some? ==> (r.value.start == 1 <==> AllStars(lines[0]))
    ensures r.Some? ==> forall k :: 0 <= k < r.value.start || r.value.end <= k < |lines| ==> AllStars(lines[k])
    ensures r.Some? && r.value.end < |lines| ==> lines[|lines| - 1] != []
  {
    var i := if lines != [] && AllStars(lines[0]) then 1 else 0;
    var j := if |lines| > i && lines[|lines| - 1] != [] && AllStars(lines[|lines| - 1]) then |lines| - 1 else |lines|;
    if i != 0 || j != |lines| then Some(Range(i, j)) else None
  }

  /** The lines the vertical trim keeps: all of them when it has nothing to drop. */
  function Kept(lines: seq<string>): (r: seq<string>)
    ensures VerticalTrim(lines).None? ==> r == lines
    ensures VerticalTrim(lines).Some? ==> r == lines[VerticalTrim(lines).value.start..VerticalTrim(lines).value.end]
  {
    match VerticalTrim(lines)
    case None => lines
    case Some(range) => lines[range.start..range.end]
  }

  // ----- horizontal trim -----

  /** `str::trim().is_empty()`. */
  predicate Empty(line: string)
  {
    AllWhitespace(line)
  }

  /** A block comment skips its first line unless that line starts, after whitespace, with a star. */
  function SkipFirst(lines: seq<string>): (n: nat)
    ensures n <= |lines| && n <= 1
    ensures n == 1 <==> (lines != [] && !StartsWith(TrimStart(lines[0]), "*"))
  {
    if lines != [] && !StartsWith(TrimStart(lines[0]), "*") then 1 else 0
  }

  /** The first line at or after `from` that is not empty after trimming, or `|lines|`. */
  function FirstText(lines: seq<string>, from: nat): (i: nat)
    requires from <= |lines|
    ensures from <= i <= |lines|
    ensures forall k :: from <= k < i ==> Empty(lines[k])
    ensures i < |lines| ==> !Empty(lines[i])
    decreases |lines| - from
  {
    if from < |lines| && Empty(lines[from]) then FirstText(lines, from + 1) else from
  }

  /** The end of the text that starts at `from`: trailing lines that are empty after trimming are cut off. */
  function TextEnd(lines: seq<string>, from: nat, to: nat): (j: nat)
    requires from <= to <= |lines|
    ensures from <= j <= to
    ensures forall k :: j <= k < to ==> Empty(lines[k])
    ensures j > from ==> !Empty(lines[j - 1])
  {
    if to > from && Empty(lines[to - 1]) then TextEnd(lines, from, to - 1) else to
  }

  /** The lines the margin is computed from: in a block comment, without the leading and trailing empty lines. */
  function TextBlock(lines: seq<string>, kind: CommentKind): seq<string>
  {
    match kind
    case Line => lines
    case Block =>
      var i := FirstText(lines, SkipFirst(lines));
      lines[i..TextEnd(lines, i, |lines|)]
  }

  /** The number of spaces and tabs `line` starts with. */
  function BlankRun(line: string): (n: nat)
    ensures n <= |line| && forall k :: 0 <= k < n ==> IsBlank(line[k])
    ensures n < |line| ==> !IsBlank(line[n])
  {
    if line != [] && IsBlank(line[0]) then 1 + BlankRun(line[1..]) else 0
  }

  /** Where the first star of `line` is, when only spaces and tabs come before it. */
  function StarColumn(line: string): (r: Option<nat>)
    ensures r.Some? ==> r.value < |line| && line[r.value] == '*'
    ensures r.Some? ==> forall k :: 0 <= k < r.value ==> IsBlank(line[k])
  {
    var n := BlankRun(line);
    if n < |line| && line[n] == '*' then Some(n) else None
  }

  /**
   * A later line fits the margin ending at `column`: spaces and tabs up to the column, and
   * there a star, or a last space or tab.
   */
  predicate Agrees(line: string, column: nat)
  {
    && column < |line|
    && (forall k :: 0 <= k < column ==> IsBlank(line[k]))
    && (line[column] == '*' || (IsBlank(line[column]) && |line| == column + 1))
  }

  /**
   * The margin shared by all the lines: the blanks before the first line's star, when the
   * first line has one and every line agrees with its column.
   */
  function Margin(lines: seq<string>): Option<string>
  {
    if lines == [] then None
    else match StarColumn(lines[0])
      case None => None
      case Some(column) =>
        if forall k :: 0 <= k < |lines| ==> Agrees(lines[k], column) then Some(lines[0][..column]) else None
  }

  /**
   * The scan of one line in `get_horizontal_trim`: `column` is the star column found so far
   * (`None` standing for `usize::MAX`, the value before any star is seen), `ok` is false where
   * the source returns `None`.
   */
  method ScanLine(line: string, column: Option<nat>) returns (ok: bool, next: Option<nat>)
    ensures ok <==> (if column.None? then StarColumn(line).Some? else Agrees(line, column.value))
    ensures ok ==> next == (if column.None? then StarColumn(line) else column)
  {
    var j := 0;
    var star := false;
    next := column;
    while j < |line| && !star
      invariant j <= |line|
      decreases |line| - j, !star
      invariant forall k :: 0 <= k < j ==> IsBlank(line[k])
      invariant column.Some? ==> j <= column.value + 1
      invariant !star ==> next == column
      invariant star ==> j < |line| && line[j] == '*' && next == Some(j) && (column.Some? ==> column.value == j)
    {
      var c := line[j];
      if (next.Some? && j > next.value) || !(c == '*' || IsBlank(c)) {
        return false, next;
      }
      if c == '*' {
        if next.None? {
          next := Some(j);
        } else if next.value != j {
          return false, next;
        }
        star := true;
      } else {
        j := j + 1;
      }
    }
    if next.None? || next.value >= |line| {
      return false, next;
    }
    ok := true;
  }

  /** The two loops of `get_horizontal_trim` that cut the empty lines off a block comment. */
  method BlockText(lines: seq<string>) returns (i: nat, j: nat)
    ensures i <= j <= |lines| && lines[i..j] == TextBlock(lines, EditCrateDocs.Block)
  {
    i := if lines != [] && !StartsWith(TrimStart(lines[0]), "*") then 1 else 0;
    j := |lines|;
    while i < j && Empty(lines[i])
      invariant SkipFirst(lines) <= i <= j == |lines|
      invariant FirstText(lines, SkipFirst(lines)) == FirstText(lines, i)
    {
      i := i + 1;
    }
    while j > i && Empty(lines[j - 1])
      invariant i <= j <= |lines|
      invariant TextEnd(lines, i, |lines|) == TextEnd(lines, i, j)
    {
      j := j - 1;
    }
  }

  /** `get_horizontal_trim`: the margin to strip from every line, if there is one. */
  method HorizontalTrim(lines: seq<string>, kind: CommentKind) returns (r: Option<string>)
    ensures r == Margin(TextBlock(lines, kind))
  {
    var block := lines;
    if kind == EditCrateDocs.Block {
      var i, j := BlockText(lines);
      block := lines[i..j];
    }
    assert block == TextBlock(lines, kind);
    var column: Option<nat> := None;
    for k := 0 to |block|
      invariant k == 0 ==> column.None?
      invariant k > 0 ==> column == StarColumn(block[0]) && column.Some?
      invariant k > 0 ==> forall m :: 0 <= m < k ==> Agrees(block[m], column.value)
    {
      var ok, next := ScanLine(block[k], column);
      if !ok {
        return None;
      }
      column := next;
    }
    if block == [] {
      return None;
    }
    r := Some(block[0][..column.value]);
  }

  /** Every line of the text agrees with the margin's column, and the margin is made of blanks. */
  lemma MarginShape(lines: seq<string>)
    requires Margin(lines).Some?
    ensures lines != [] && StarColumn(lines[0]) == Some(|Margin(lines).value|)
    ensures forall k :: 0 <= k < |lines| ==> Agrees(lines[k], |Margin(lines).value|)
    ensures forall k :: 0 <= k < |Margin(lines).value| ==> IsBlank(Margin(lines).value[k])
  {
  }

  // ----- stripping -----

  /** One line with the margin removed, and in a block comment the star after it. */
  function StripLine(line: string, margin: string, kind: CommentKind): string
  {
    match StripPrefix(line, margin)
    case None => line
    case Some(rest) =>
      if kind == EditCrateDocs.Block && (rest == "*" || StartsWith(rest, "* ") || StartsWith(rest, "**")) then rest[1..]
      else rest
  }

  /** Stripping takes off at most the margin and one star. */
  lemma StripLineUndecorates(line: string, margin: string, kind: CommentKind)
    requires forall k :: 0 <= k < |margin| ==> IsBlank(margin[k])
    ensures Undecorated(line, StripLine(line, margin, kind))
    ensures |line| - |StripLine(line, margin, kind)| <= |margin| + 1
  {
    match StripPrefix(line, margin)
    case None =>
    case Some(rest) =>
      assert line == margin + rest;
      if kind == EditCrateDocs.Block && (rest == "*" || StartsWith(rest, "* ") || StartsWith(rest, "**")) {
        assert rest[0] == '*';
        assert line[|margin|] == '*';
        assert line[|margin| + 1..] == rest[1..];
      } else {
        assert line[|margin|..] == rest;
      }
  }

  function StripAll(lines: seq<string>, margin: string, kind: CommentKind): (r: seq<string>)
    ensures |r| == |lines| && forall k :: 0 <= k < |lines| ==> r[k] == StripLine(lines[k], margin, kind)
  {
    seq(|lines|, k requires 0 <= k < |lines| => StripLine(lines[k], margin, kind))
  }

  /** The lines `beautify_doc_string` joins, or `None` when it finds nothing to change. */
  function Trimmed(lines: seq<string>, kind: CommentKind): Option<seq<string>>
  {
    var kept := Kept(lines);
    match Margin(TextBlock(kept, kind))
    case Some(margin) => Some(StripAll(kept, margin, kind))
    case None => if VerticalTrim(lines).Some? then Some(kept) else None
  }

  /** What `beautify_doc_string` returns. */
  function Beautified(data: string, kind: CommentKind): string
  {
    if Newline !in data then data
    else match Trimmed(Lines(data, Newline, Return), kind)
      case Some(lines) => Join(lines, "\n")
      case None => data
  }

  /** The loop that rewrites each line in place. */
  method StripLines(lines: seq<string>, margin: string, kind: CommentKind) returns (out: seq<string>)
    ensures out == StripAll(lines, margin, kind)
  {
    out := lines;
    for k := 0 to |out|
      invariant |out| == |lines|
      invariant forall m :: 0 <= m < k ==> out[m] == StripLine(lines[m], margin, kind)
      invariant forall m :: k <= m < |out| ==> out[m] == lines[m]
    {
      match StripPrefix(out[k], margin)
      case Some(rest) =>
        var line := rest;
        if kind == EditCrateDocs.Block && (line == "*" || StartsWith(line, "* ") || StartsWith(line, "**")) {
          line := line[1..];
        }
        out := out[k := line];
      case None =>
    }
  }

  /** The trimming of the lines, with `changes` telling whether anything was trimmed. */
  method Trim(lines: seq<string>, kind: CommentKind) returns (changes: bool, out: seq<string>)
    ensures changes <==> Trimmed(lines, kind).Some?
    ensures changes ==> out == Trimmed(lines, kind).value
  {
    out := lines;
    changes := false;
    var range := VerticalTrim(lines);
    if range.Some? {
      changes := true;
      out := lines[range.value.start..range.value.end];
    }
    assert out == Kept(lines);
    var horizontal := HorizontalTrim(out, kind);
    if horizontal.Some? {
      changes := true;
      out := StripLines(out, horizontal.value, kind);
    }
  }

  /** `beautify_doc_string`: the lines are joined again only when something changed. */
  method Beautify(data: string, kind: CommentKind) returns (r: string)
    ensures Newline !in data ==> r == data
    ensures r == Beautified(data, kind)
  {
    if Newline in data {
      var changes, lines := Trim(Lines(data, Newline, Return), kind);
      if changes {
        return Join(lines, "\n");
      }
    }
    return data;
  }

  /**
   * The trimmed lines are a run of the input lines, each with a prefix of spaces, tabs and
   * stars removed; the lines dropped at either end are lines of stars.
   */
  ghost predicate Decorations(lines: seq<string>, i: nat, outs: seq<string>)
  {
    && i + |outs| <= |lines|
    && (forall k :: 0 <= k < i || i + |outs| <= k < |lines| ==> AllStars(lines[k]))
    && (forall k :: 0 <= k < |outs| ==> Undecorated(lines[i + k], outs[k]))
  }

  /** The kept lines are a run of the input lines; the dropped ones are lines of stars. */
  lemma KeptRun(lines: seq<string>) returns (i: nat)
    ensures i + |Kept(lines)| <= |lines| && Kept(lines) == lines[i..i + |Kept(lines)|]
    ensures forall k :: 0 <= k < i || i + |Kept(lines)| <= k < |lines| ==> AllStars(lines[k])
  {
    i := 0;
    if VerticalTrim(lines).Some? {
      i := VerticalTrim(lines).value.start;
    }
  }

  lemma TrimmedUndecorates(lines: seq<string>, kind: CommentKind)
    requires Trimmed(lines, kind).Some?
    ensures exists i :: Decorations(lines, i, Trimmed(lines, kind).value)
  {
    var kept := Kept(lines);
    var i := KeptRun(lines);
    var outs := Trimmed(lines, kind).value;
    assert |outs| == |kept|;
    forall k | 0 <= k < |outs|
      ensures Undecorated(lines[i + k], outs[k])
    {
      assert lines[i + k] == kept[k];
      match Margin(TextBlock(kept, kind))
      case Some(margin) =>
        MarginShape(TextBlock(kept, kind));
        StripLineUndecorates(kept[k], margin, kind);
      case None =>
    }
    assert Decorations(lines, i, outs);
  }

  /** What `beautify_doc_string` returns is its input, or the undecorated lines of its input joined by line feeds. */
  lemma BeautifiedUndecorates(data: string, kind: CommentKind)
    ensures Beautified(data, kind) == data
      || exists outs :: Beautified(data, kind) == Join(outs, "\n") && exists i :: Decorations(Lines(data, Newline, Return), i, outs)
  {
    if Newline in data {
      var lines := Lines(data, Newline, Return);
      var t := Trimmed(lines, kind);
      if t.Some? {
        TrimmedUndecorates(lines, kind);
        var i :| Decorations(lines, i, t.value);
        assert Beautified(data, kind) == Join(t.value, "\n");
        assert Decorations(Lines(data, Newline, Return), i, t.value);
        assert exists outs :: Beautified(data, kind) == Join(outs, "\n") && exists i :: Decorations(Lines(data, Newline, Return), i, outs);
      } else {
        assert Beautified(data, kind) == data;
      }
    }
  }
}
