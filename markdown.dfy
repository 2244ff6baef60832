/**
 * The markdown helpers: the tokenizer's event stream (an input here), `byte_range`,
 * `end_of_line`, section markers, subsection tags and definition extraction.
 */
module Markdown {
  import opened Wrappers
  import opened Seqs
  import opened Text
  import opened StringReplacing

  datatype Kind = Enter | Exit

  /** The construct names the rewrite and the section finders look at; the rest are `OtherName`. */
  datatype Name =
    | HeadingAtx | HeadingAtxSequence
    | CodeFenced | CodeFencedFence | CodeFencedFenceInfo | CodeFencedFenceSequence
    | CodeIndented | CodeFlowChunk | SpaceOrTab | LineEnding
    | Definition | DefinitionDestination | DefinitionDestinationString
    | Link | Label | LabelText | Resource | ResourceDestination | ResourceDestinationString
    | Reference | ReferenceString
    | HtmlFlow | HtmlText
    | OtherName

  /** One tokenizer event: entering or leaving a construct, at a byte offset of the markdown. */
  datatype Event = Event(kind: Kind, name: Name, point: nat)

  /** A byte range `start..end`. */
  datatype Range = Range(start: nat, end: nat)

  datatype Section = Section(span: Range, contentSpan: Range)

  /** The nearest index below `i` that holds an Enter of `name`: the search in `position`. */
  function NearestEnter(events: seq<Event>, name: Name, i: nat): (r: Option<nat>)
    requires i <= |events|
    ensures r.Some? ==> r.value < i && events[r.value].kind == Enter && events[r.value].name == name
    ensures r.Some? ==> forall j :: r.value < j < i ==> !(events[j].kind == Enter && events[j].name == name)
    ensures r.None? ==> forall j :: 0 <= j < i ==> !(events[j].kind == Enter && events[j].name == name)
  {
    if i == 0 then None
    else if events[i - 1].kind == Enter && events[i - 1].name == name then Some(i - 1)
    else NearestEnter(events, name, i - 1)
  }

  /**
   * What the tokenizer guarantees about event `k` of `md`: an Exit has an Enter of the
   * same name before it (so `byte_range` never panics), offsets never decrease, and every
   * offset is a character boundary of the text.
   */
  predicate EventOk(events: seq<Event>, md: Bytes, k: nat)
    requires k < |events|
  {
    && (events[k].kind == Exit ==> NearestEnter(events, events[k].name, k).Some?)
    && (k > 0 ==> events[k - 1].point <= events[k].point)
    && events[k].point <= |md| && IsCharBoundary(md, events[k].point)
  }

  predicate WellFormed(events: seq<Event>, md: Bytes)
  {
    forall k :: 0 <= k < |events| ==> EventOk(events, md, k)
  }

  lemma {:induction false} PointsOrdered(events: seq<Event>, md: Bytes, i: nat, j: nat)
    requires WellFormed(events, md) && i <= j < |events|
    ensures events[i].point <= events[j].point
    decreases j - i
  {
    if i < j {
      PointsOrdered(events, md, i, j - 1);
      assert EventOk(events, md, j);
    }
  }

  /** `byte_range`: from the nearest preceding Enter of the same name to the Exit's offset; it panics when there is none. */
  function ByteRange(events: seq<Event>, x: nat): (r: Range)
    requires x < |events| && events[x].kind == Exit && NearestEnter(events, events[x].name, x).Some?
    ensures r.end == events[x].point
    ensures r.start == events[NearestEnter(events, events[x].name, x).value].point
  {
    var j := NearestEnter(events, events[x].name, x).value;
    Range(events[j].point, events[x].point)
  }

  /** On a well-formed stream a byte range exists and is an ordered range of character boundaries of the text. */
  lemma ByteRangeWithin(events: seq<Event>, md: Bytes, x: nat)
    requires WellFormed(events, md) && x < |events| && events[x].kind == Exit
    ensures NearestEnter(events, events[x].name, x).Some?
    ensures ByteRange(events, x).start <= ByteRange(events, x).end <= |md|
    ensures IsCharBoundary(md, ByteRange(events, x).start) && IsCharBoundary(md, ByteRange(events, x).end)
  {
    assert EventOk(events, md, x);
    var j := NearestEnter(events, events[x].name, x).value;
    assert EventOk(events, md, j);
    PointsOrdered(events, md, j, x);
  }

  /** `&markdown[range]`. */
  function Slice(md: Bytes, r: Range): Bytes
    requires r.start <= r.end <= |md|
  {
    md[r.start..r.end]
  }

  /** `byte_range` on a well-formed stream, with what `ByteRangeWithin` proves about it. */
  function Span(md: Bytes, events: seq<Event>, x: nat): (r: Range)
    requires WellFormed(events, md) && x < |events| && events[x].kind == Exit
    ensures r.start <= r.end <= |md| && r.end == events[x].point
    ensures IsCharBoundary(md, r.start) && IsCharBoundary(md, r.end)
    ensures NearestEnter(events, events[x].name, x).Some? && r == ByteRange(events, x)
  {
    ByteRangeWithin(events, md, x);
    ByteRange(events, x)
  }

  /** The text of the construct that exits at `x`. */
  function TextOf(md: Bytes, events: seq<Event>, x: nat): Bytes
    requires WellFormed(events, md) && x < |events| && events[x].kind == Exit
  {
    Slice(md, Span(md, events, x))
  }

  const LF: byte := 10

  const CommentOpen: Bytes := Ascii("<!--")
  const CommentClose: Bytes := Ascii("-->")
  const MarkerOpen: Bytes := Ascii("<!-- ")
  const MarkerClose: Bytes := Ascii(" -->")
  const StartSuffix: Bytes := Ascii(" start")
  const EndSuffix: Bytes := Ascii(" end")
  const StartWord: Bytes := Ascii("start")
  const EndWord: Bytes := Ascii("end")
  const Space: Bytes := Ascii(" ")

  /** `end_of_line`: just past the next line feed at or after `i`, or the end of the text. */
  function EndOfLine(md: Bytes, i: nat): (r: nat)
    requires i <= |md| && IsCharBoundary(md, i)
    ensures i <= r <= |md|
    ensures r < |md| || LF in md[i..] ==> (r > i && md[r - 1] == LF && LF !in md[i..r - 1])
    ensures LF !in md[i..] ==> r == |md|
  {
    match IndexOf(md[i..], LF)
    case Some(k) => assert md[i..][..k] == md[i..i + k]; i + k + 1
    case None => |md|
  }

  // ----- find_section -----

  predicate IsHtmlExit(events: seq<Event>, i: nat)
    requires i < |events|
  {
    events[i].kind == Exit && (events[i].name == HtmlFlow || events[i].name == HtmlText)
  }

  /** The text of the HTML node that exits at `k`, if one does. */
  function HtmlTextAt(md: Bytes, events: seq<Event>, k: nat): Option<Bytes>
    requires WellFormed(events, md) && k < |events|
  {
    if IsHtmlExit(events, k) then Some(TextOf(md, events, k)) else None
  }

  /** `HtmlTextAt` for each of the first `n` events. */
  function HtmlTexts(md: Bytes, events: seq<Event>, n: nat): (r: seq<Option<Bytes>>)
    requires WellFormed(events, md) && n <= |events|
    ensures |r| == n
  {
    if n == 0 then [] else HtmlTexts(md, events, n - 1) + [HtmlTextAt(md, events, n - 1)]
  }

  lemma {:induction false} HtmlTextsAt(md: Bytes, events: seq<Event>, n: nat, k: nat)
    requires WellFormed(events, md) && k < n <= |events|
    ensures HtmlTexts(md, events, n)[k] == HtmlTextAt(md, events, k)
  {
    if k < n - 1 {
      HtmlTextsAt(md, events, n - 1, k);
    }
  }

  /** The largest index below `below` whose HTML node is exactly `marker`. */
  function LastMarker(texts: seq<Option<Bytes>>, marker: Bytes, below: nat): (r: Option<nat>)
    requires below <= |texts|
    ensures r.Some? ==> r.value < below && texts[r.value] == Some(marker)
    ensures r.Some? ==> forall j :: r.value < j < below ==> texts[j] != Some(marker)
    ensures r.None? ==> forall j :: 0 <= j < below ==> texts[j] != Some(marker)
  {
    if below == 0 then None
    else if texts[below - 1] == Some(marker) then Some(below - 1)
    else LastMarker(texts, marker, below - 1)
  }

  /** Moving the bound of `LastMarker` down past one entry. */
  lemma LastMarkerStep(texts: seq<Option<Bytes>>, marker: Bytes, i: nat)
    requires i < |texts|
    ensures texts[i] == Some(marker) ==> LastMarker(texts, marker, i + 1) == Some(i)
    ensures texts[i] != Some(marker) ==> LastMarker(texts, marker, i + 1) == LastMarker(texts, marker, i)
  {
  }

  function StartMarker(sectionName: Bytes): Bytes { MarkerOpen + sectionName + StartSuffix + MarkerClose }
  function EndMarker(sectionName: Bytes): Bytes { MarkerOpen + sectionName + EndSuffix + MarkerClose }

  /**
   * The section `find_section` finds: the last end marker and the nearest start marker
   * before it; the span covers both markers and the content lies between them.
   */
  function SectionOf(md: Bytes, events: seq<Event>, sectionName: Bytes): Option<Section>
    requires WellFormed(events, md)
  {
    var texts := HtmlTexts(md, events, |events|);
    match LastMarker(texts, EndMarker(sectionName), |events|)
    case None => None
    case Some(e) =>
      match LastMarker(texts, StartMarker(sectionName), e)
      case None => None
      case Some(s) =>
        HtmlTextsAt(md, events, |events|, s);
        HtmlTextsAt(md, events, |events|, e);
        ByteRangeWithin(events, md, s);
        ByteRangeWithin(events, md, e);
        var start, end := ByteRange(events, s), ByteRange(events, e);
        Some(Section(Range(start.start, end.end), Range(start.end, end.start)))
  }

  /** `find_section`: a reverse scan over the HTML nodes that remembers the first end marker it meets. */
  method FindSection(md: Bytes, events: seq<Event>, sectionName: Bytes) returns (r: Option<Section>)
    requires WellFormed(events, md)
    ensures r == SectionOf(md, events, sectionName)
  {
    var startMarker, endMarker := StartMarker(sectionName), EndMarker(sectionName);
    var end: Option<Range> := None;
    ghost var endIndex: nat := 0;
    ghost var texts := HtmlTexts(md, events, |events|);
    var index := |events|;
    while index > 0
      invariant 0 <= index <= |events|
      invariant end.None? ==> LastMarker(texts, endMarker, |events|) == LastMarker(texts, endMarker, index)
      invariant end.Some? ==> (index <= endIndex < |events| && events[endIndex].kind == Exit
        && NearestEnter(events, events[endIndex].name, endIndex).Some?
        && LastMarker(texts, endMarker, |events|) == Some(endIndex)
        && end.value == ByteRange(events, endIndex)
        && LastMarker(texts, startMarker, endIndex) == LastMarker(texts, startMarker, index))
    {
      index := index - 1;
      LastMarkerStep(texts, startMarker, index);
      LastMarkerStep(texts, endMarker, index);
      HtmlTextsAt(md, events, |events|, index);
      var event := events[index];
      if event.kind == Enter {
        continue;
      }
      if !(event.name == HtmlFlow || event.name == HtmlText) {
        continue;
      }
      ByteRangeWithin(events, md, index);
      var html := ByteRange(events, index);
      var htmlStr := TextOf(md, events, index);
      if end.Some? {
        if htmlStr == startMarker {
          r := Some(Section(Range(html.start, end.value.end), Range(html.end, end.value.start)));
          return;
        }
      } else if htmlStr == endMarker {
        end := Some(html);
        endIndex := index;
      }
    }
    r := None;
  }

  /** HTML nodes do not nest: between an HTML Exit and its Enter there is no other HTML event. */
  predicate HtmlFlat(events: seq<Event>)
  {
    forall x, i :: 0 <= i < x < |events| && IsHtmlExit(events, x)
      && NearestEnter(events, events[x].name, x).Some? && NearestEnter(events, events[x].name, x).value < i
      ==> !(events[i].name == HtmlFlow || events[i].name == HtmlText)
  }

  /** A found section is ordered, and its content lies between the end of the start marker and the start of the end marker. */
  lemma SectionOrdered(md: Bytes, events: seq<Event>, sectionName: Bytes)
    requires WellFormed(events, md) && HtmlFlat(events)
    ensures var r := SectionOf(md, events, sectionName);
      r.Some? ==> (r.value.span.start <= r.value.contentSpan.start <= r.value.contentSpan.end <= r.value.span.end <= |md|)
  {
    var texts := HtmlTexts(md, events, |events|);
    match LastMarker(texts, EndMarker(sectionName), |events|)
    case None =>
    case Some(e) =>
      match LastMarker(texts, StartMarker(sectionName), e)
      case None =>
      case Some(s) =>
        HtmlTextsAt(md, events, |events|, s);
        HtmlTextsAt(md, events, |events|, e);
        ByteRangeWithin(events, md, s);
        ByteRangeWithin(events, md, e);
        var j := NearestEnter(events, events[e].name, e).value;
        assert IsHtmlExit(events, e) && IsHtmlExit(events, s);
        assert s < j;
        PointsOrdered(events, md, s, j);
        assert events[s].point <= events[j].point;
  }

  /** Without HTML nodes (markers inside code are code, not HTML) no section is found. */
  lemma {:induction false} NoHtmlNoSection(md: Bytes, events: seq<Event>, marker: Bytes, below: nat)
    requires WellFormed(events, md) && below <= |events|
    requires forall i :: 0 <= i < |events| ==> !IsHtmlExit(events, i)
    ensures LastMarker(HtmlTexts(md, events, |events|), marker, below) == None
  {
    if below > 0 {
      HtmlTextsAt(md, events, |events|, below - 1);
      NoHtmlNoSection(md, events, marker, below - 1);
    }
  }

  // ----- HTML comments and subsection tags -----

  /** The comments of one HTML node: from `end`, find `<!--`, then `-->` from that start. */
  function CommentsFrom(html: Bytes, end: nat): (r: seq<Range>)
    requires end <= |html|
    decreases |html| - end
  {
    match FindFrom(html, CommentOpen, end)
    case None => []
    case Some(start) =>
      match FindFrom(html, CommentClose, start)
      case None => []
      case Some(p) =>
        FindFromSpec(html, CommentOpen, end);
        FindFromSpec(html, CommentClose, start);
        [Range(start, p + 3)] + CommentsFrom(html, p + 3)
  }

  /** `r` is a comment of `html`: it starts with `<!--` and ends with `-->`. */
  predicate CommentAt(html: Bytes, r: Range)
  {
    r.start + 3 <= r.end <= |html| && OccursAt(html, CommentOpen, r.start) && OccursAt(html, CommentClose, r.end - 3)
  }

  /** The ranges are comments of `html` from `end` on, in increasing order and not overlapping. */
  predicate CommentsOrdered(html: Bytes, cs: seq<Range>, end: nat)
  {
    && (forall k :: 0 <= k < |cs| ==> end <= cs[k].start && CommentAt(html, cs[k]))
    && (forall k :: 0 <= k < |cs| - 1 ==> cs[k].end <= cs[k + 1].start)
  }

  /** The comments are in increasing order, do not overlap, and each starts with `<!--` and ends with `-->`. */
  lemma {:induction false} CommentsShape(html: Bytes, end: nat)
    requires end <= |html|
    ensures CommentsOrdered(html, CommentsFrom(html, end), end)
    decreases |html| - end
  {
    var cs := CommentsFrom(html, end);
    CommentsStep(html, end);
    if cs != [] {
      CommentsShape(html, cs[0].end);
      CommentsCons(html, cs[0], CommentsFrom(html, cs[0].end), cs, end);
    }
  }

  /** The first comment found from `end` on is a comment there, and the search goes on after it. */
  lemma CommentsStep(html: Bytes, end: nat)
    requires end <= |html|
    ensures var cs := CommentsFrom(html, end);
      cs == [] || (end <= cs[0].start && CommentAt(html, cs[0]) && cs == [cs[0]] + CommentsFrom(html, cs[0].end))
  {
    match FindFrom(html, CommentOpen, end)
    case None =>
    case Some(start) =>
      FindFromFound(html, CommentOpen, end);
      match FindFrom(html, CommentClose, start)
      case None =>
      case Some(p) =>
        FindFromFound(html, CommentClose, start);
        assert CommentAt(html, Range(start, p + 3));
  }

  /** A comment from `end` on, followed by ordered comments after it, gives ordered comments from `end` on. */
  lemma CommentsCons(html: Bytes, c: Range, tail: seq<Range>, cs: seq<Range>, end: nat)
    requires cs == [c] + tail && CommentAt(html, c) && end <= c.start
    requires CommentsOrdered(html, tail, c.end)
    ensures CommentsOrdered(html, cs, end)
  {
    forall k | 0 <= k < |cs|
      ensures end <= cs[k].start && CommentAt(html, cs[k])
    {
      if k > 0 {
        assert cs[k] == tail[k - 1];
      }
    }
    forall k | 0 <= k < |cs| - 1
      ensures cs[k].end <= cs[k + 1].start
    {
      if k > 0 {
        assert cs[k] == tail[k - 1] && cs[k + 1] == tail[k];
      }
    }
  }

  /** Every range lies within a text of length `n`. */
  predicate RangesWithin(rs: seq<Range>, n: nat)
  {
    forall k :: 0 <= k < |rs| ==> rs[k].start <= rs[k].end <= n
  }

  /** The ranges of the HTML nodes below index `i`, last node first (`find_html`). */
  function HtmlRanges(md: Bytes, events: seq<Event>, i: nat): (r: seq<Range>)
    requires WellFormed(events, md) && i <= |events|
    ensures RangesWithin(r, |md|)
  {
    if i == 0 then []
    else if IsHtmlExit(events, i - 1) then
      ByteRangeWithin(events, md, i - 1);
      [ByteRange(events, i - 1)] + HtmlRanges(md, events, i - 1)
    else HtmlRanges(md, events, i - 1)
  }

  function Shift(rs: seq<Range>, offset: nat): (r: seq<Range>)
    ensures |r| == |rs| && forall k :: 0 <= k < |rs| ==> r[k] == Range(rs[k].start + offset, rs[k].end + offset)
  {
    if rs == [] then [] else [Range(rs[0].start + offset, rs[0].end + offset)] + Shift(rs[1..], offset)
  }

  /** `c` lies inside one of the ranges `rs`. */
  predicate InSome(rs: seq<Range>, c: Range)
  {
    exists j :: 0 <= j < |rs| && rs[j].start <= c.start && c.end <= rs[j].end
  }

  /** A comment of the node `h`, moved to the node's place in the text, is a comment of the text inside the node. */
  lemma ShiftedComment(md: Bytes, h: Range, c: Range, moved: Range)
    requires h.start <= h.end <= |md| && CommentAt(Slice(md, h), c)
    requires moved == Range(c.start + h.start, c.end + h.start)
    ensures CommentAt(md, moved) && h.start <= moved.start && moved.end <= h.end
  {
    var s, o := Slice(md, h), h.start;
    assert forall i :: 0 <= i < |s| ==> s[i] == md[o + i];
    var a, b := c.start, c.end - 3;
    assert md[o + a..o + a + |CommentOpen|] == s[a..a + |CommentOpen|];
    assert md[o + b..o + b + |CommentClose|] == s[b..b + |CommentClose|];
  }

  /** Every range of `rs` is a comment of the text lying inside one of the nodes `htmls`. */
  predicate CommentsIn(md: Bytes, htmls: seq<Range>, rs: seq<Range>)
  {
    forall k :: 0 <= k < |rs| ==> CommentAt(md, rs[k]) && InSome(htmls, rs[k])
  }

  lemma CommentsInConcat(md: Bytes, htmls: seq<Range>, a: seq<Range>, b: seq<Range>)
    requires CommentsIn(md, htmls, a) && CommentsIn(md, htmls, b)
    ensures CommentsIn(md, htmls, a + b)
  {
    forall k | 0 <= k < |a + b|
      ensures CommentAt(md, (a + b)[k]) && InSome(htmls, (a + b)[k])
    {
      if k >= |a| {
        assert (a + b)[k] == b[k - |a|];
      }
    }
  }

  /** Comments of the node `h`, moved to its place in the text, are comments of the text inside the node. */
  lemma MovedComments(md: Bytes, h: Range, own: seq<Range>)
    requires h.start <= h.end <= |md| && forall k :: 0 <= k < |own| ==> CommentAt(Slice(md, h), own[k])
    ensures var moved := Shift(own, h.start);
      forall k :: 0 <= k < |moved| ==> CommentAt(md, moved[k]) && h.start <= moved[k].start && moved[k].end <= h.end
  {
    var moved := Shift(own, h.start);
    forall k | 0 <= k < |moved|
      ensures CommentAt(md, moved[k]) && h.start <= moved[k].start && moved[k].end <= h.end
    {
      ShiftedComment(md, h, own[k], moved[k]);
    }
  }

  /** The comments of the first node lie in it. */
  lemma FirstNodeComments(md: Bytes, htmls: seq<Range>)
    requires htmls != [] && htmls[0].start <= htmls[0].end <= |md|
    ensures CommentsIn(md, htmls, Shift(CommentsFrom(Slice(md, htmls[0]), 0), htmls[0].start))
  {
    var h := htmls[0];
    var own := CommentsFrom(Slice(md, h), 0);
    CommentsShape(Slice(md, h), 0);
    MovedComments(md, h, own);
    var moved := Shift(own, h.start);
    forall k | 0 <= k < |moved|
      ensures InSome(htmls, moved[k])
    {
      assert htmls[0].start <= moved[k].start && moved[k].end <= htmls[0].end;
    }
  }

  /** The comments of the later nodes lie in some node. */
  lemma LaterNodeComments(md: Bytes, htmls: seq<Range>, rest: seq<Range>)
    requires htmls != [] && CommentsIn(md, htmls[1..], rest)
    ensures CommentsIn(md, htmls, rest)
  {
    var tail := htmls[1..];
    forall k | 0 <= k < |rest|
      ensures InSome(htmls, rest[k])
    {
      assert InSome(tail, rest[k]);
      var j :| 0 <= j < |tail| && tail[j].start <= rest[k].start && rest[k].end <= tail[j].end;
      assert htmls[j + 1] == tail[j];
    }
  }

  /** `find_html_comments`: the comments of each HTML node, nodes last first, comments in order within a node. */
  function HtmlComments(md: Bytes, htmls: seq<Range>): (r: seq<Range>)
    requires forall k :: 0 <= k < |htmls| ==> htmls[k].start <= htmls[k].end <= |md|
    ensures CommentsIn(md, htmls, r)
  {
    if htmls == [] then []
    else
      var own, rest := Shift(CommentsFrom(Slice(md, htmls[0]), 0), htmls[0].start), HtmlComments(md, htmls[1..]);
      FirstNodeComments(md, htmls);
      LaterNodeComments(md, htmls, rest);
      CommentsInConcat(md, htmls, own, rest);
      own + rest
  }

  datatype TagKind = Start | End
  datatype Tag = Tag(range: Range, kind: TagKind, name: Bytes)

  /** `parse_name_and_kind`. */
  function NameAndKind(s: Bytes): (r: Option<(Bytes, TagKind)>)
    ensures r.Some? && r.value.1 == Start <==> EndsWith(s, StartSuffix)
    ensures r.Some? && r.value.1 == Start ==> s == r.value.0 + StartSuffix
    ensures r.Some? && r.value.1 == End ==> s == r.value.0 + EndSuffix
  {
    match StripSuffix(s, StartSuffix)
    case Some(name) => Some((name, Start))
    case None =>
      match StripSuffix(s, EndSuffix)
      case Some(name) => Some((name, End))
      case None => None
  }

  /** The tag a comment is: `<!-- {section} {name} start -->` or `... end -->`. */
  function TagOf(comment: Bytes, sectionName: Bytes): Option<(Bytes, TagKind)>
  {
    match StripPrefix(comment, MarkerOpen)
    case None => None
    case Some(a) =>
      match StripSuffix(a, MarkerClose)
      case None => None
      case Some(b) =>
        match StripPrefix(b, sectionName)
        case None => None
        case Some(c) =>
          match StripPrefix(c, Space)
          case None => None
          case Some(d) => NameAndKind(d)
  }

  /** The comment text of a subsection tag: `<!-- {section} {name} start -->` or `... end -->`. */
  function TagText(sectionName: Bytes, name: Bytes, kind: TagKind): Bytes
  {
    MarkerOpen + ((sectionName + (Space + (name + (if kind == Start then StartSuffix else EndSuffix)))) + MarkerClose)
  }

  /** Every comment recognised as a subsection tag has the tag form. */
  lemma TagOfShape(comment: Bytes, sectionName: Bytes)
    ensures var t := TagOf(comment, sectionName);
      t.Some? ==> comment == TagText(sectionName, t.value.0, t.value.1)
  {
    match StripPrefix(comment, MarkerOpen)
    case None =>
    case Some(a) =>
      match StripSuffix(a, MarkerClose)
      case None =>
      case Some(b) =>
        match StripPrefix(b, sectionName)
        case None =>
        case Some(c) =>
          match StripPrefix(c, Space)
          case None =>
          case Some(d) =>
  }

  /** Every text of the tag form is recognised, with its name and kind. */
  lemma TagRoundTrip(sectionName: Bytes, name: Bytes, kind: TagKind)
    ensures TagOf(TagText(sectionName, name, kind), sectionName) == Some((name, kind))
  {
    var k := if kind == Start then StartSuffix else EndSuffix;
    StripPrefixConcat(MarkerOpen, (sectionName + (Space + (name + k))) + MarkerClose);
    StripSuffixConcat(sectionName + (Space + (name + k)), MarkerClose);
    StripPrefixConcat(sectionName, Space + (name + k));
    StripPrefixConcat(Space, name + k);
    StripSuffixConcat(name, k);
    if kind == End {
      var d := name + EndSuffix;
      assert d[|d| - 2] == EndSuffix[2] != StartSuffix[4];
      assert !EndsWith(d, StartSuffix);
    }
  }

  /** The bare section markers are not subsection tags. */
  lemma BareMarkersAreNotTags(sectionName: Bytes)
    ensures TagOf(StartMarker(sectionName), sectionName) == None
    ensures TagOf(EndMarker(sectionName), sectionName) == None
  {
    StartMarkerIsNotTag(sectionName);
    EndMarkerIsNotTag(sectionName);
  }

  /** Neither bare word `start` nor `end` carries a ` start` or ` end` suffix. */
  lemma BareWordsUnsuffixed()
    ensures !EndsWith(StartWord, StartSuffix) && !EndsWith(StartWord, EndSuffix)
    ensures !EndsWith(EndWord, StartSuffix) && !EndsWith(EndWord, EndSuffix)
  {
    assert StartWord == [115, 116, 97, 114, 116] && EndWord == [101, 110, 100];
    assert StartSuffix == [32, 115, 116, 97, 114, 116] && EndSuffix == [32, 101, 110, 100];
  }

  lemma StartMarkerIsNotTag(sectionName: Bytes)
    ensures TagOf(StartMarker(sectionName), sectionName) == None
  {
    var open, close, start := MarkerOpen, MarkerClose, StartSuffix;
    BareWordsUnsuffixed();
    assert StartMarker(sectionName) == open + ((sectionName + start) + close);
    StripPrefixConcat(open, (sectionName + start) + close);
    StripSuffixConcat(sectionName + start, close);
    StripPrefixConcat(sectionName, start);
    StripPrefixConcat(Space, StartWord);
  }

  lemma EndMarkerIsNotTag(sectionName: Bytes)
    ensures TagOf(EndMarker(sectionName), sectionName) == None
  {
    var open, close, end := MarkerOpen, MarkerClose, EndSuffix;
    BareWordsUnsuffixed();
    assert EndMarker(sectionName) == open + ((sectionName + end) + close);
    StripPrefixConcat(open, (sectionName + end) + close);
    StripSuffixConcat(sectionName + end, close);
    StripPrefixConcat(sectionName, end);
    StripPrefixConcat(Space, EndWord);
  }

  /** The text of `t`'s range in `md` is the comment of a subsection tag of `sectionName`, as `t` says. */
  predicate IsTag(md: Bytes, sectionName: Bytes, t: Tag)
  {
    t.range.start <= t.range.end <= |md| && Slice(md, t.range) == TagText(sectionName, t.name, t.kind)
  }

  /** `find_subsection_tags`: the comments that are tags of `sectionName`, in the comments' order. */
  function SubsectionTags(md: Bytes, comments: seq<Range>, sectionName: Bytes): (r: seq<Tag>)
    requires forall k :: 0 <= k < |comments| ==> comments[k].start <= comments[k].end <= |md|
    ensures |r| <= |comments|
    ensures forall k :: 0 <= k < |r| ==> IsTag(md, sectionName, r[k])
    ensures comments != [] && TagOf(Slice(md, comments[0]), sectionName).Some? ==> r != [] && r[0].range == comments[0]
  {
    if comments == [] then []
    else
      var rest := SubsectionTags(md, comments[1..], sectionName);
      TagOfShape(Slice(md, comments[0]), sectionName);
      match TagOf(Slice(md, comments[0]), sectionName)
      case None => rest
      case Some((name, kind)) => [Tag(comments[0], kind, name)] + rest
  }

  /**
   * How `find_subsections` pairs tags that arrive last first: an end tag, then the start
   * tag of the same name. A start with no pending end is an error, and so is a pending
   * end followed by anything but its start; a final unpaired end is dropped.
   */
  function PairTags(tags: seq<Tag>): (r: Result<seq<(Section, Bytes)>>)
  {
    if tags == [] then Ok([])
    else if tags[0].kind == Start then Err("subsection end without start")
    else if |tags| == 1 then Ok([])
    else if tags[1].kind == Start && tags[1].name == tags[0].name then
      Prepend([PairOf(tags[1], tags[0])], PairTags(tags[2..]))
    else Err("subsections must be disjoint")
  }

  function Prepend(sections: seq<(Section, Bytes)>, r: Result<seq<(Section, Bytes)>>): Result<seq<(Section, Bytes)>>
  {
    match r
    case Ok(rest) => Ok(sections + rest)
    case Err(e) => Err(e)
  }

  function PairOf(start: Tag, end: Tag): (Section, Bytes)
  {
    (Section(Range(start.range.start, end.range.end), Range(start.range.end, end.range.start)), start.name)
  }

  lemma PrependEmpty(r: Result<seq<(Section, Bytes)>>)
    ensures Prepend([], r) == r
  {
    if r.Ok? {
      assert [] + r.value == r.value;
    }
  }

  lemma PrependAssoc(a: seq<(Section, Bytes)>, b: seq<(Section, Bytes)>, r: Result<seq<(Section, Bytes)>>)
    ensures Prepend(a, Prepend(b, r)) == Prepend(a + b, r)
  {
    if r.Ok? {
      assert a + (b + r.value) == (a + b) + r.value;
    }
  }

  /** How `PairTags` treats the tags from `j` on, by the kind of the first one or two. */
  lemma PairTagsAt(tags: seq<Tag>, j: nat)
    requires j < |tags|
    ensures tags[j].kind == Start ==> PairTags(tags[j..]) == Err("subsection end without start")
    ensures tags[j].kind == End && j + 1 == |tags| ==> PairTags(tags[j..]) == Ok([])
    ensures tags[j].kind == End && j + 1 < |tags| ==> (PairTags(tags[j..]) ==
      if tags[j + 1].kind == Start && tags[j + 1].name == tags[j].name
      then Prepend([PairOf(tags[j + 1], tags[j])], PairTags(tags[j + 2..]))
      else Err("subsections must be disjoint"))
  {
    var t := tags[j..];
    assert t[0] == tags[j];
    if j + 1 < |tags| {
      assert t[1] == tags[j + 1] && t[2..] == tags[j + 2..];
    }
  }

  /** `find_subsections`: the reverse scan with a pending end tag. */
  method FindSubsections(tags: seq<Tag>) returns (r: Result<seq<(Section, Bytes)>>)
    ensures r == PairTags(tags)
  {
    var sections: seq<(Section, Bytes)> := [];
    var end: Option<(Range, Bytes)> := None;
    var i := 0;
    assert tags[0..] == tags;
    PrependEmpty(PairTags(tags));
    while i < |tags|
      invariant 0 <= i <= |tags|
      invariant end.None? ==> PairTags(tags) == Prepend(sections, PairTags(tags[i..]))
      invariant end.Some? ==> (0 < i && tags[i - 1].kind == End && end.value == (tags[i - 1].range, tags[i - 1].name)
        && PairTags(tags) == Prepend(sections, PairTags(tags[i - 1..])))
    {
      var tag := tags[i];
      if end.Some? {
        var (endRange, endName) := end.value;
        PairTagsAt(tags, i - 1);
        if tag.name == endName && tag.kind == Start {
          var pair := (Section(Range(tag.range.start, endRange.end), Range(tag.range.end, endRange.start)), tag.name);
          assert pair == PairOf(tags[i], tags[i - 1]);
          PrependAssoc(sections, [pair], PairTags(tags[i + 1..]));
          sections := sections + [pair];
          end := None;
        } else {
          return Err("subsections must be disjoint");
        }
      } else {
        PairTagsAt(tags, i);
        if tag.kind == End {
          end := Some((tag.range, tag.name));
        } else {
          return Err("subsection end without start");
        }
      }
      i := i + 1;
    }
    if end.Some? {
      PairTagsAt(tags, i - 1);
    } else {
      assert tags[i..] == [];
    }
    assert sections + [] == sections;
    return Ok(sections);
  }

  // ----- extract_definitions -----

  /** The range `extract_definitions` removes for the definition that exits at `x`: the definition through the end of its line. */
  function DefinitionAt(md: Bytes, events: seq<Event>, x: nat): (r: Range)
    requires WellFormed(events, md) && x < |events| && events[x].kind == Exit
    ensures r.start <= r.end <= |md|
    ensures r.start == Span(md, events, x).start && IsCharBoundary(md, r.start)
    ensures r.end == EndOfLine(md, Span(md, events, x).end)
  {
    var range := Span(md, events, x);
    Range(range.start, EndOfLine(md, range.end))
  }

  predicate IsDefinitionExit(events: seq<Event>, i: nat)
    requires i < |events|
  {
    events[i].kind == Exit && events[i].name == Definition
  }

  /** For each event, the range `extract_definitions` removes there, if any. */
  function DefinitionMarks(md: Bytes, events: seq<Event>): (r: seq<Option<Range>>)
    requires WellFormed(events, md)
    ensures |r| == |events|
    ensures forall k :: 0 <= k < |events| ==> r[k] == (if IsDefinitionExit(events, k) then Some(DefinitionAt(md, events, k)) else None)
  {
    seq(|events|, k requires 0 <= k < |events| => if IsDefinitionExit(events, k) then Some(DefinitionAt(md, events, k)) else None)
  }

  /** Every present mark lies within a text of length `n`. */
  predicate MarksWithin(m: seq<Option<Range>>, n: nat)
  {
    forall k :: 0 <= k < |m| && m[k].Some? ==> m[k].value.start <= m[k].value.end <= n
  }

  lemma MarksWithinParts(m: seq<Option<Range>>, i: nat, n: nat)
    requires MarksWithin(m, n) && i <= |m|
    ensures MarksWithin(m[..i], n) && MarksWithin(m[i..], n)
  {
    forall k | 0 <= k < |m[i..]| && m[i..][k].Some?
      ensures m[i..][k].value.start <= m[i..][k].value.end <= n
    {
      assert m[i..][k] == m[i + k];
    }
  }

  lemma {:induction false} PickedWithin(m: seq<Option<Range>>, n: nat)
    requires MarksWithin(m, n)
    ensures RangesWithin(Picked(m), n)
  {
    if m != [] {
      assert MarksWithin(m[1..], n) by {
        forall k | 0 <= k < |m[1..]| && m[1..][k].Some?
          ensures m[1..][k].value.start <= m[1..][k].value.end <= n
        {
          assert m[1..][k] == m[k + 1];
        }
      }
      PickedWithin(m[1..], n);
    }
  }

  /** The ranges of all definitions, last one first. */
  function DefinitionRanges(md: Bytes, events: seq<Event>): (r: seq<Range>)
    requires WellFormed(events, md)
  {
    Picked(DefinitionMarks(md, events))
  }

  function Removals(rs: seq<Range>): (r: seq<Edit>)
    ensures |r| == |rs|
  {
    if rs == [] then [] else [Edit(rs[0].start, rs[0].end, [])] + Removals(rs[1..])
  }

  function Slices(md: Bytes, rs: seq<Range>): (r: seq<Bytes>)
    requires RangesWithin(rs, |md|)
    ensures |r| == |rs|
  {
    if rs == [] then [] else [Slice(md, rs[0])] + Slices(md, rs[1..])
  }

  /** Removing ranges and collecting their text loses no byte. */
  lemma {:induction false} RemovalsKeepLength(md: Bytes, rs: seq<Range>)
    requires RangesWithin(rs, |md|)
    ensures |Concat(Slices(md, rs))| + Growth(Removals(rs)) == 0
  {
    if rs != [] {
      RemovalsKeepLength(md, rs[1..]);
      assert Removals(rs)[1..] == Removals(rs[1..]);
      assert Slices(md, rs)[1..] == Slices(md, rs[1..]);
    }
  }

  lemma EmptyConcat<T>(s: seq<T>)
    ensures [] + s == s
  {
  }

  lemma Assoc3<T>(a: seq<T>, b: seq<T>, c: seq<T>)
    ensures a + (b + c) == (a + b) + c
  {
  }

  lemma {:induction false} RemovalsAppend(a: seq<Range>, b: seq<Range>)
    ensures Removals(a + b) == Removals(a) + Removals(b)
    decreases |a|
  {
    if a == [] {
      assert a + b == b;
    } else {
      assert (a + b)[0] == a[0] && (a + b)[1..] == a[1..] + b;
      RemovalsAppend(a[1..], b);
      Assoc3([Edit(a[0].start, a[0].end, [])], Removals(a[1..]), Removals(b));
    }
  }

  lemma {:induction false} SlicesAppend(md: Bytes, a: seq<Range>, b: seq<Range>)
    requires RangesWithin(a, |md|)
    requires RangesWithin(b, |md|)
    ensures RangesWithin(a + b, |md|)
    ensures Slices(md, a + b) == Slices(md, a) + Slices(md, b)
    decreases |a|
  {
    if a == [] {
      assert a + b == b;
    } else {
      assert (a + b)[0] == a[0] && (a + b)[1..] == a[1..] + b;
      SlicesAppend(md, a[1..], b);
      Assoc3([Slice(md, a[0])], Slices(md, a[1..]), Slices(md, b));
    }
  }

  /** One definition removed by `extract_definitions`: what the loop needs to know about it. */
  lemma {:induction false} DefinitionStep(md: Bytes, m: seq<Option<Range>>, index: nat)
    requires index < |m| && m[index].Some? && MarksWithin(m, |md|)
    requires Fits(md, Removals(Picked(m[index + 1..])))
    ensures var range, ranges := m[index].value, Picked(m[index + 1..]);
      && Picked(m[index..]) == ranges + [range]
      && RangesWithin(ranges, |md|) && RangesWithin(ranges + [range], |md|)
      && Removals(ranges + [range]) == Removals(ranges) + [Edit(range.start, range.end, [])]
      && Slices(md, ranges + [range]) == Slices(md, ranges) + [md[range.start..range.end]]
      && Cut(|md|, Removals(ranges)) <= |md|
      && (Fits(md, Removals(ranges + [range])) <==> Accepts(md[..Cut(|md|, Removals(ranges))], range.start, range.end))
      && (!Fits(md, Removals(ranges + [range])) ==> !Fits(md, Removals(Picked(m))))
  {
    var range, ranges := m[index].value, Picked(m[index + 1..]);
    PickedStep(m, index);
    MarksWithinParts(m, index, |md|);
    MarksWithinParts(m, index + 1, |md|);
    PickedWithin(m[index + 1..], |md|);
    PickedWithin(m[..index], |md|);
    assert RangesWithin([range], |md|);
    SlicesAppend(md, ranges, [range]);
    RemovalsAppend(ranges, [range]);
    assert Removals([range]) == [Edit(range.start, range.end, [])];
    FitsBackToFront(md, Removals(ranges));
    FitsAppend(md, Removals(ranges), Edit(range.start, range.end, []));
    var done := Removals(ranges + [range]);
    var below := Picked(m[..index]);
    PickedSplit(m, index);
    RemovalsAppend(ranges + [range], below);
    if Fits(md, done + Removals(below)) {
      FitsPrefix(md, done, Removals(below));
    }
  }

  /**
   * `extract_definitions`: removes every definition (through the end of its line) and
   * returns the rest and the removed text, last definition first; `None` is the panic
   * of a removal that does not fit.
   */
  method ExtractDefinitions(md: Bytes, events: seq<Event>) returns (r: Option<(Bytes, Bytes)>)
    requires WellFormed(events, md)
    ensures var rs := DefinitionRanges(md, events);
      r.Some? <==> Applied(md, Removals(rs)).Some?
    ensures var rs := DefinitionRanges(md, events);
      r.Some? ==> (RangesWithin(rs, |md|) && Some(r.value.0) == Applied(md, Removals(rs))
        && r.value.1 == Concat(Slices(md, rs)) && |r.value.0| + |r.value.1| == |md|)
  {
    ghost var m := DefinitionMarks(md, events);
    assert MarksWithin(m, |md|);
    var out := new StringReplacer(md);
    var definitions: seq<Bytes> := [];
    var index := |events|;
    while index > 0
      invariant 0 <= index <= |events|
      invariant out.Valid() && out.original == md
      invariant RangesWithin(Picked(m[index..]), |md|)
      invariant out.edits == Removals(Picked(m[index..]))
      invariant Fits(md, out.edits)
      invariant definitions == Slices(md, Picked(m[index..]))
      decreases index
    {
      index := index - 1;
      if events[index].kind == Enter || events[index].name != Definition {
        PickedStep(m, index);
        continue;
      }
      var range := DefinitionAt(md, events, index);
      DefinitionStep(md, m, index);
      definitions := definitions + [md[range.start..range.end]];
      var ok := out.Remove(range.start, range.end);
      if !ok {
        return None;
      }
    }
    var without := out.Finish();
    assert m[0..] == m;
    RemovalsKeepLength(md, Picked(m));
    r := Some((without, Concat(definitions)));
  }
}
