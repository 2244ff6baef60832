/**
 * The markdown rewrite of the extracted crate docs: heading levels are shifted, Rust
 * code blocks are relabelled and lose their hidden lines, links and definitions whose
 * identifier has a resolved url are rewritten, and placeholder definitions disappear.
 * The rewrite walks the event stream backwards and issues its edits to a replacer.
 */
module RewriteMarkdown {
  import opened Wrappers
  import opened Seqs
  import opened Text
  import opened StringReplacing
  import opened Markdown

  // ----- the children / descendants iterators -----

  /**
   * The `(index, depth)` pairs the `children` and `descendants` iterators pass below
   * `i`, nearest first: an Exit deepens, an Enter rises, and an Enter at depth 0
   * (the Enter of the construct itself) ends the scan.
   */
  function Scan(events: seq<Event>, i: nat, depth: nat): (r: seq<(nat, nat)>)
    requires i <= |events|
    ensures |r| <= i
    ensures forall k :: 0 <= k < |r| ==> r[k].0 == i - 1 - k
  {
    if i == 0 || (depth == 0 && events[i - 1].kind == Enter) then []
    else
      var d := if events[i - 1].kind == Enter then depth - 1 else depth + 1;
      [(i - 1, d)] + Scan(events, i - 1, d)
  }

  /** The indices of `scan` that are Exits, at depth 1 only when `direct` holds, in scan order. */
  function ExitsOf(events: seq<Event>, scan: seq<(nat, nat)>, direct: bool): (r: seq<nat>)
    requires forall k :: 0 <= k < |scan| ==> scan[k].0 < |events|
    ensures forall k :: 0 <= k < |r| ==> r[k] < |events| && events[r[k]].kind == Exit
  {
    if scan == [] then []
    else
      var (i, d) := scan[0];
      var rest := ExitsOf(events, scan[1..], direct);
      if events[i].kind == Exit && (!direct || d == 1) then [i] + rest else rest
  }

  /** The Exits of a scan that counts down from `top` are at most `top` and come out in decreasing order. */
  lemma {:induction false} ExitsDecrease(events: seq<Event>, scan: seq<(nat, nat)>, direct: bool, top: nat)
    requires forall k :: 0 <= k < |scan| ==> scan[k].0 < |events| && scan[k].0 == top - k
    ensures forall k :: 0 <= k < |ExitsOf(events, scan, direct)| ==> ExitsOf(events, scan, direct)[k] <= top
    ensures forall a, b :: 0 <= a < b < |ExitsOf(events, scan, direct)| ==>
      ExitsOf(events, scan, direct)[a] > ExitsOf(events, scan, direct)[b]
  {
    if scan != [] {
      if |scan| > 1 {
        assert scan[1..][0].0 == top - 1;
        ExitsDecrease(events, scan[1..], direct, top - 1);
        assert forall k :: 0 <= k < |ExitsOf(events, scan[1..], direct)| ==> ExitsOf(events, scan[1..], direct)[k] <= top - 1;
      } else {
        assert scan[1..] == [];
        assert ExitsOf(events, scan[1..], direct) == [];
      }
      var rest := ExitsOf(events, scan[1..], direct);
      assert forall k :: 0 <= k < |rest| ==> rest[k] < top;
      var r := ExitsOf(events, scan, direct);
      if r != rest {
        assert r == [top] + rest;
        assert forall k :: 0 < k < |r| ==> r[k] == rest[k - 1];
      }
    }
  }

  /** `children`: the Exits directly inside the construct that exits at `index`, nearest first. */
  function Children(events: seq<Event>, index: nat): (r: seq<nat>)
    requires index < |events|
    ensures forall k :: 0 <= k < |r| ==> r[k] < index && events[r[k]].kind == Exit
    ensures forall a, b :: 0 <= a < b < |r| ==> r[a] > r[b]
  {
    var scan := Scan(events, index, 0);
    if scan == [] then [] else
    var r := ExitsOf(events, scan, true);
    ExitsDecrease(events, scan, true, index - 1);
    assert forall k :: 0 <= k < |r| ==> r[k] <= index - 1;
    r
  }

  /** `descendants`: all Exits inside the construct that exits at `index`, nearest first. */
  function Descendants(events: seq<Event>, index: nat): (r: seq<nat>)
    requires index < |events|
    ensures AllExits(events, r) && forall k :: 0 <= k < |r| ==> r[k] < index
  {
    var scan := Scan(events, index, 0);
    if scan == [] then [] else
    var r := ExitsOf(events, scan, false);
    ExitsDecrease(events, scan, false, index - 1);
    assert forall k :: 0 <= k < |r| ==> r[k] <= index - 1;
    r
  }

  /** The position in `xs` of the first element named `name`. */
  function FirstNamed(events: seq<Event>, xs: seq<nat>, name: Name): (r: Option<nat>)
    requires forall k :: 0 <= k < |xs| ==> xs[k] < |events|
    ensures r.Some? ==> r.value < |xs| && events[xs[r.value]].name == name
    ensures r.Some? ==> forall k :: 0 <= k < r.value ==> events[xs[k]].name != name
    ensures r.None? ==> forall k :: 0 <= k < |xs| ==> events[xs[k]].name != name
  {
    if xs == [] then None
    else if events[xs[0]].name == name then Some(0)
    else match FirstNamed(events, xs[1..], name)
      case None => None
      case Some(k) => Some(k + 1)
  }

  /** The first element of `xs` named `name`: `iter.filter(..).next()`. */
  function Named(events: seq<Event>, xs: seq<nat>, name: Name): (r: Option<nat>)
    requires forall k :: 0 <= k < |xs| ==> xs[k] < |events|
    ensures r.Some? ==> r.value in xs && events[r.value].name == name
  {
    match FirstNamed(events, xs, name)
    case None => None
    case Some(k) => Some(xs[k])
  }

  /** `child`: the first child named `name` the scan meets, which is the one with the highest index. */
  function Child(events: seq<Event>, index: nat, name: Name): (r: Option<nat>)
    requires index < |events|
    ensures r.Some? ==> r.value < index && events[r.value].kind == Exit && events[r.value].name == name
  {
    Named(events, Children(events, index), name)
  }

  /** `descendant`: the first descendant named `name` the scan meets. */
  function Descendant(events: seq<Event>, index: nat, name: Name): (r: Option<nat>)
    requires index < |events|
    ensures r.Some? ==> r.value < index && events[r.value].kind == Exit && events[r.value].name == name
  {
    Named(events, Descendants(events, index), name)
  }

  /** `child` returns the matching direct child with the highest index, and finds one whenever there is one. */
  lemma ChildIsHighest(events: seq<Event>, index: nat, name: Name)
    requires index < |events|
    ensures var r, cs := Child(events, index, name), Children(events, index);
      && (r.None? <==> forall j :: 0 <= j < |cs| ==> events[cs[j]].name != name)
      && (r.Some? ==> r.value in cs && forall j :: 0 <= j < |cs| && cs[j] > r.value ==> events[cs[j]].name != name)
  {
    var cs := Children(events, index);
    match FirstNamed(events, cs, name)
    case None =>
    case Some(k) =>
      assert forall j :: 0 <= j < |cs| && cs[j] > cs[k] ==> j < k;
  }

  /** `descendants_with_name(..).nth(n)`. */
  function NthNamed(events: seq<Event>, xs: seq<nat>, name: Name, n: nat): (r: Option<nat>)
    requires forall k :: 0 <= k < |xs| ==> xs[k] < |events|
    ensures r.Some? ==> r.value < |events| && r.value in xs && events[r.value].name == name
  {
    match FirstNamed(events, xs, name)
    case None => None
    case Some(k) => if n == 0 then Some(xs[k]) else NthNamed(events, xs[k + 1..], name, n - 1)
  }

  /** The position in `xs` of the last element named `name`. */
  function LastNamed(events: seq<Event>, xs: seq<nat>, name: Name): (r: Option<nat>)
    requires forall k :: 0 <= k < |xs| ==> xs[k] < |events|
    ensures r.Some? ==> r.value < |xs| && events[xs[r.value]].name == name
    ensures r.Some? ==> forall k :: r.value < k < |xs| ==> events[xs[k]].name != name
    ensures r.None? ==> forall k :: 0 <= k < |xs| ==> events[xs[k]].name != name
  {
    if xs == [] then None
    else if events[xs[|xs| - 1]].name == name then Some(|xs| - 1)
    else LastNamed(events, xs[..|xs| - 1], name)
  }

  /** The lowest-index direct child named `name`: the last one the scan meets. */
  function LastChild(events: seq<Event>, index: nat, name: Name): (r: Option<nat>)
    requires index < |events|
    ensures var cs := Children(events, index);
      && (r.None? <==> forall j :: 0 <= j < |cs| ==> events[cs[j]].name != name)
      && (r.Some? ==> r.value in cs && events[r.value].name == name)
      && (r.Some? ==> forall j :: 0 <= j < |cs| && cs[j] < r.value ==> events[cs[j]].name != name)
  {
    var cs := Children(events, index);
    match LastNamed(events, cs, name)
    case None => None
    case Some(k) =>
      assert forall j :: 0 <= j < |cs| && cs[j] < cs[k] ==> j > k;
      Some(cs[k])
  }

  // ----- find_any_of -----

  /** The constructs the rewrite acts on. */
  predicate IsInteresting(events: seq<Event>, i: nat)
    requires i < |events|
  {
    events[i].kind == Exit
    && events[i].name in {HeadingAtx, CodeFenced, CodeIndented, Definition, Link}
  }

  /** `find_any_of`: the largest index below `index` that holds an interesting Exit. */
  function FindAnyOf(events: seq<Event>, index: nat): (r: Option<nat>)
    requires index <= |events|
    ensures r.Some? ==> r.value < index && IsInteresting(events, r.value)
    ensures r.Some? ==> forall j :: r.value < j < index ==> !IsInteresting(events, j)
    ensures r.None? ==> forall j :: 0 <= j < index ==> !IsInteresting(events, j)
  {
    if index == 0 then None
    else if IsInteresting(events, index - 1) then Some(index - 1)
    else FindAnyOf(events, index - 1)
  }

  // ----- options, link table and the appended definitions -----

  /** An `i8`. */
  type I8 = x: int | -128 <= x < 128

  /** `RewriteMarkdownOptions`: the heading shift and the link table (identifier, resolved url). */
  datatype Options = Options(shrinkHeadings: I8, links: seq<(Bytes, Option<Bytes>)>)

  /** The destination given to identifiers that could not be resolved. */
  const Placeholder: Bytes := Ascii("__PLACEHOLDER_DESTINATION__")

  /** `links.get(key)` on the map collected from the table: the last entry for a key wins. */
  function Lookup(links: seq<(Bytes, Option<Bytes>)>, key: Bytes): (r: Option<Option<Bytes>>)
  {
    if links == [] then None
    else if links[|links| - 1].0 == key then Some(links[|links| - 1].1)
    else Lookup(links[..|links| - 1], key)
  }

  /** The map has a key exactly when some entry has it, and then holds the value of the last such entry. */
  lemma {:induction false} LookupSpec(links: seq<(Bytes, Option<Bytes>)>, key: Bytes)
    ensures Lookup(links, key).None? <==> forall k :: 0 <= k < |links| ==> links[k].0 != key
    ensures Lookup(links, key).Some? ==>
      exists k :: (0 <= k < |links| && links[k] == (key, Lookup(links, key).value)
        && forall j :: k < j < |links| ==> links[j].0 != key)
  {
    if links != [] && links[|links| - 1].0 != key {
      var init := links[..|links| - 1];
      LookupSpec(init, key);
      if Lookup(init, key).Some? {
        var k :| 0 <= k < |init| && init[k] == (key, Lookup(init, key).value)
          && forall j :: k < j < |init| ==> init[j].0 != key;
        assert links[k] == init[k];
      }
    }
  }

  /** One appended definition line: `[id]: dest` with the placeholder for an unresolved identifier. */
  function DefinitionLine(id: Bytes, dest: Option<Bytes>): Bytes
  {
    OpenBracket + id + CloseBracketColon + (if dest.Some? then dest.value else Placeholder) + [LF]
  }

  const OpenBracket: Bytes := Ascii("[")
  const CloseBracketColon: Bytes := Ascii("]: ")
  const BlankLine: Bytes := Ascii("\n\n")

  function DefinitionLines(links: seq<(Bytes, Option<Bytes>)>): Bytes
  {
    if links == [] then [] else DefinitionLines(links[..|links| - 1]) + DefinitionLine(links[|links| - 1].0, links[|links| - 1].1)
  }

  /** What `add_definitions` makes of the markdown. */
  function WithDefinitions(md: Bytes, links: seq<(Bytes, Option<Bytes>)>): Bytes
  {
    if links == [] then md else md + BlankLine + DefinitionLines(links)
  }

  /** `add_definitions`: with a non-empty table, a blank line and then one definition line per entry. */
  method AddDefinitions(md: Bytes, links: seq<(Bytes, Option<Bytes>)>) returns (r: Bytes)
    ensures r == WithDefinitions(md, links)
  {
    r := md;
    if links != [] {
      r := r + BlankLine;
    }
    ghost var head := r;
    var i := 0;
    while i < |links|
      invariant 0 <= i <= |links|
      invariant r == head + DefinitionLines(links[..i])
    {
      assert links[..i + 1][..i] == links[..i];
      r := r + DefinitionLine(links[i].0, links[i].1);
      i := i + 1;
    }
    assert links[..i] == links;
  }

  /** The markdown stays a prefix; with an empty table nothing is added, otherwise a blank line comes first. */
  lemma WithDefinitionsShape(md: Bytes, links: seq<(Bytes, Option<Bytes>)>)
    ensures |WithDefinitions(md, links)| >= |md| && WithDefinitions(md, links)[..|md|] == md
    ensures links == [] <==> WithDefinitions(md, links) == md
    ensures links != [] ==> WithDefinitions(md, links)[|md|..|md| + 2] == BlankLine
  {
    var r := WithDefinitions(md, links);
    if links != [] {
      var blank := BlankLine;
      assert |blank| == 2;
      var tail := blank + DefinitionLines(links);
      assert r == md + tail;
      assert r[..|md|] == md && r[|md|..|md| + 2] == tail[..2] == blank;
    }
  }

  /** Each entry adds its own line after the lines of the entries before it. */
  lemma DefinitionLinesAppend(links: seq<(Bytes, Option<Bytes>)>, id: Bytes, dest: Option<Bytes>)
    ensures DefinitionLines(links + [(id, dest)]) == DefinitionLines(links) + DefinitionLine(id, dest)
    ensures |DefinitionLine(id, dest)| == |id| + 5 + (if dest.Some? then |dest.value| else |Placeholder|)
  {
    assert (links + [(id, dest)])[..|links|] == links;
  }

  // ----- headings -----

  /** `n as i8`: the low byte, read as two's complement. */
  function AsI8(n: nat): (r: I8)
    ensures n < 128 ==> r == n
  {
    ((n + 128) % 256) - 128
  }

  function Clamp(x: int, lo: int, hi: int): int
    requires lo <= hi
  {
    if x < lo then lo else if x > hi then hi else x
  }

  /** `i8::saturating_add`. */
  function SaturatingAdd(a: I8, b: I8): I8
  {
    Clamp(a + b, -128, 127)
  }

  /** `level.saturating_add(shrink).clamp(1, 6)`. */
  function NewLevel(level: I8, shrink: I8): (r: nat)
    ensures 1 <= r <= 6
  {
    Clamp(SaturatingAdd(level, shrink), 1, 6)
  }

  const Hashes: Bytes := [35, 35, 35, 35, 35, 35]
  const Hash: byte := 35
  const SpaceByte: byte := 32

  /** Saturating first and clamping after gives the plain sum clamped to the six heading levels. */
  lemma NewLevelIsClamp(level: I8, shrink: I8)
    ensures NewLevel(level, shrink) == Clamp(level + shrink, 1, 6)
    ensures Hashes[..NewLevel(level, shrink)] == seq(NewLevel(level, shrink), _ => Hash)
  {
  }

  /** The level table of the heading tests for `## foo`, and two levels less for `####`. */
  lemma ShrinkHeadingsTable()
    ensures NewLevel(2, -3) == 1 && NewLevel(2, -2) == 1 && NewLevel(2, -1) == 1 && NewLevel(2, 0) == 2
    ensures NewLevel(2, 1) == 3 && NewLevel(2, 2) == 4 && NewLevel(2, 3) == 5
    ensures NewLevel(2, 4) == 6 && NewLevel(2, 5) == 6 && NewLevel(2, 6) == 6
    ensures NewLevel(4, -2) == 2
  {
  }

  /** The new hash run for a heading whose run of hashes exits at `h`. */
  function HashEdit(md: Bytes, events: seq<Event>, h: nat, shrink: I8): (r: Edit)
    requires WellFormed(events, md) && h < |events| && events[h].kind == Exit
    ensures r.start <= r.end <= |md| && r.end == events[h].point
    ensures 1 <= |r.with| <= 6 && forall k :: 0 <= k < |r.with| ==> r.with[k] == Hash
    ensures |r.with| == NewLevel(AsI8(r.end - r.start), shrink)
  {
    var range := Span(md, events, h);
    Edit(range.start, range.end, Hashes[..NewLevel(AsI8(range.end - range.start), shrink)])
  }

  /** The heading arm as written: it takes `child(.., HeadingAtxSequence)`, the closing run when there is one. */
  function HeadingEditsAsWritten(md: Bytes, events: seq<Event>, index: nat, shrink: I8): (r: seq<Edit>)
    requires WellFormed(events, md) && index < |events|
    ensures |r| <= 1
  {
    match Child(events, index, HeadingAtxSequence)
    case None => []
    case Some(h) => [HashEdit(md, events, h, shrink)]
  }

  /** The heading arm on the opening run of hashes, the lowest-index `HeadingAtxSequence` child. */
  function HeadingEdits(md: Bytes, events: seq<Event>, index: nat, shrink: I8): (r: seq<Edit>)
    requires WellFormed(events, md) && index < |events|
    ensures |r| <= 1
  {
    match LastChild(events, index, HeadingAtxSequence)
    case None => []
    case Some(h) => [HashEdit(md, events, h, shrink)]
  }

  /** Both arms edit a run of hashes exactly when the heading has one, and agree when it has a single run. */
  lemma HeadingArmsAgree(md: Bytes, events: seq<Event>, index: nat, shrink: I8)
    requires WellFormed(events, md) && index < |events|
    ensures |HeadingEdits(md, events, index, shrink)| == |HeadingEditsAsWritten(md, events, index, shrink)|
    ensures (forall a, b :: 0 <= a < b < |Children(events, index)| ==>
        events[Children(events, index)[a]].name != HeadingAtxSequence || events[Children(events, index)[b]].name != HeadingAtxSequence)
      ==> HeadingEdits(md, events, index, shrink) == HeadingEditsAsWritten(md, events, index, shrink)
  {
    ChildIsHighest(events, index, HeadingAtxSequence);
    var cs := Children(events, index);
    match LastChild(events, index, HeadingAtxSequence)
    case None =>
    case Some(h) =>
      var c := Child(events, index, HeadingAtxSequence).value;
      var a :| 0 <= a < |cs| && cs[a] == c;
      var b :| 0 <= b < |cs| && cs[b] == h;
      assert a != b ==> events[cs[a]].name == HeadingAtxSequence && events[cs[b]].name == HeadingAtxSequence;
  }

  // ----- code blocks -----

  /** The prefixes of a fence info string that mark a Rust block. */
  const RustStarts: seq<Bytes> := [
    Ascii("rust"), Ascii("ignore"), Ascii("should_panic"), Ascii("no_run"),
    Ascii("compile_fail"), Ascii("edition"), Ascii("standalone_crate")]

  function AnyStart(info: Bytes, starts: seq<Bytes>): bool
  {
    starts != [] && (StartsWith(info, starts[0]) || AnyStart(info, starts[1..]))
  }

  /** `code_block_fence_is_rust`. */
  function FenceIsRust(info: Bytes): bool
  {
    info == [] || AnyStart(info, RustStarts)
  }

  lemma {:induction false} AnyStartSpec(info: Bytes, starts: seq<Bytes>)
    ensures AnyStart(info, starts) <==> exists k :: 0 <= k < |starts| && StartsWith(info, starts[k])
  {
    if starts != [] {
      AnyStartSpec(info, starts[1..]);
      if AnyStart(info, starts[1..]) {
        var k :| 0 <= k < |starts[1..]| && StartsWith(info, starts[1..][k]);
        assert StartsWith(info, starts[k + 1]);
      }
      if !StartsWith(info, starts[0]) {
        forall k | 0 < k < |starts| && StartsWith(info, starts[k])
          ensures AnyStart(info, starts[1..])
        {
          assert starts[1..][k - 1] == starts[k];
        }
      }
    }
  }

  /** A fence is Rust iff its info string is empty or starts with one of the seven listed words. */
  lemma FenceIsRustSpec(info: Bytes)
    ensures FenceIsRust(info) <==> info == [] || exists k :: 0 <= k < |RustStarts| && StartsWith(info, RustStarts[k])
  {
    AnyStartSpec(info, RustStarts);
  }

  /** Cases from the fence tests. */
  lemma FenceIsRustExamples()
    ensures FenceIsRust([]) && FenceIsRust(Ascii("edition2018")) && FenceIsRust(Ascii("ignore-x86_64,ignore-windows"))
    ensures !FenceIsRust(Ascii("c"))
  {
    assert StartsWith(Ascii("edition2018"), RustStarts[5]);
    assert StartsWith(Ascii("ignore-x86_64,ignore-windows"), RustStarts[1]);
    FenceIsRustSpec(Ascii("c"));
  }

  /**
   * `clean_code_chunk` on the chunk `rng`: a hidden line (`#` then a space or nothing,
   * after leading whitespace) is removed through its line feed, but never past `limit`;
   * `##` loses one `#`; anything else is kept.
   */
  function ChunkEdits(md: Bytes, rng: Range, limit: nat): (r: seq<Edit>)
    requires rng.start <= rng.end <= |md| && IsCharBoundary(md, rng.end)
    ensures |r| <= 1
    ensures rng.end <= limit ==> EndsBy(r, limit)
  {
    var line := md[rng.start..rng.end];
    var lead := TrimStartLen(line);
    var trimmed := line[lead..];
    if trimmed == [] || trimmed[0] != Hash then []
    else if |trimmed| == 1 || trimmed[1] == SpaceByte then
      var eol := EndOfLine(md, rng.end);
      [Edit(rng.start, if eol <= limit then eol else limit, [])]
    else if trimmed[1] == Hash then [Edit(rng.start + lead, rng.start + lead + 1, [])]
    else []
  }

  /** The three outcomes of cleaning a chunk. */
  lemma ChunkEditsSpec(md: Bytes, rng: Range, limit: nat)
    requires rng.start <= rng.end <= |md| && IsCharBoundary(md, rng.end)
    ensures var line, r := md[rng.start..rng.end], ChunkEdits(md, rng, limit);
      var t := line[TrimStartLen(line)..];
      && (|t| >= 1 && t[0] == Hash && (|t| == 1 || t[1] == SpaceByte) ==>
           r == [Edit(rng.start, Min(EndOfLine(md, rng.end), limit), [])])
      && (|t| >= 2 && t[0] == Hash && t[1] == Hash ==>
           |r| == 1 && r[0].end == r[0].start + 1 && r[0].with == [] && md[r[0].start] == Hash)
      && (!(|t| >= 1 && t[0] == Hash) || (|t| >= 2 && t[1] != Hash && t[1] != SpaceByte) <==> r == [])
  {
    var line := md[rng.start..rng.end];
    var lead := TrimStartLen(line);
    if |line[lead..]| >= 2 {
      assert md[rng.start + lead] == line[lead..][0];
    }
  }

  function Min(a: nat, b: nat): nat
  {
    if a <= b then a else b
  }

  /** Cleaning a chunk with the limit left wide open: what `clean_code_chunk` does as written. */
  lemma ChunkEditsUnlimited(md: Bytes, rng: Range, limit: nat)
    requires rng.start <= rng.end <= |md| && IsCharBoundary(md, rng.end)
    requires EndOfLine(md, rng.end) <= limit
    ensures ChunkEdits(md, rng, limit) == ChunkEdits(md, rng, |md|)
  {
  }

  /** The edits for one child of a code block: chunks are cleaned and, in an indented block, indentation is removed. */
  function ChildEdits(md: Bytes, events: seq<Event>, c: nat, limit: nat, indented: bool): (r: seq<Edit>)
    requires WellFormed(events, md) && c < |events| && events[c].kind == Exit
  {
    var range := Span(md, events, c);
    if events[c].name == CodeFlowChunk then ChunkEdits(md, range, limit)
    else if indented && events[c].name == SpaceOrTab then [Edit(range.start, range.end, [])]
    else []
  }

  predicate AllExits(events: seq<Event>, kids: seq<nat>)
  {
    forall k :: 0 <= k < |kids| ==> kids[k] < |events| && events[kids[k]].kind == Exit
  }

  /** The loop over `children(events, index)`, nearest child first. */
  function ChildrenEdits(md: Bytes, events: seq<Event>, kids: seq<nat>, limit: nat, indented: bool): (r: seq<Edit>)
    requires WellFormed(events, md) && AllExits(events, kids)
  {
    if kids == [] then []
    else ChildEdits(md, events, kids[0], limit, indented) + ChildrenEdits(md, events, kids[1..], limit, indented)
  }

  /** Every edit ends at or before `limit` when every child ends there. */
  predicate EndsBy(es: seq<Edit>, limit: nat)
  {
    forall k :: 0 <= k < |es| ==> es[k].start <= es[k].end <= limit
  }

  lemma EndsByAppend(a: seq<Edit>, b: seq<Edit>, limit: nat)
    requires EndsBy(a, limit) && EndsBy(b, limit)
    ensures EndsBy(a + b, limit)
  {
    assert forall k :: 0 <= k < |b| ==> (a + b)[|a| + k] == b[k];
  }

  lemma ChildEditsEndBy(md: Bytes, events: seq<Event>, c: nat, limit: nat, indented: bool)
    requires WellFormed(events, md) && c < |events| && events[c].kind == Exit && events[c].point <= limit
    ensures EndsBy(ChildEdits(md, events, c, limit, indented), limit)
  {
  }

  lemma {:induction false} ChildrenEditsEndBy(md: Bytes, events: seq<Event>, kids: seq<nat>, limit: nat, indented: bool)
    requires WellFormed(events, md) && AllExits(events, kids)
    requires forall k :: 0 <= k < |kids| ==> events[kids[k]].point <= limit
    ensures EndsBy(ChildrenEdits(md, events, kids, limit, indented), limit)
  {
    if kids != [] {
      ChildrenEditsEndBy(md, events, kids[1..], limit, indented);
      ChildEditsEndBy(md, events, kids[0], limit, indented);
      EndsByAppend(ChildEdits(md, events, kids[0], limit, indented), ChildrenEdits(md, events, kids[1..], limit, indented), limit);
    }
  }

  /** The chunks of a fenced block are cleaned with no limit, as the source does. */
  function FencedChunkEdits(md: Bytes, events: seq<Event>, index: nat): (r: seq<Edit>)
    requires WellFormed(events, md) && index < |events|
  {
    var cs := Children(events, index);
    assert AllExits(events, cs);
    ChildrenEdits(md, events, cs, |md|, false)
  }

  const RustLabel: Bytes := Ascii("rust")

  /** A fence with an info string: a Rust one is relabelled `rust` after its chunks are cleaned. */
  function FenceInfoEdits(md: Bytes, events: seq<Event>, index: nat, info: nat): (r: seq<Edit>)
    requires WellFormed(events, md) && index < |events| && info < |events| && events[info].kind == Exit
  {
    var infoRange := Span(md, events, info);
    if !FenceIsRust(Slice(md, infoRange)) then []
    else FencedChunkEdits(md, events, index) + [Edit(infoRange.start, infoRange.end, RustLabel)]
  }

  /** The fenced arm: a Rust fence gets its chunks cleaned and its info replaced by (or, when empty, set to) `rust`. */
  function FencedEdits(md: Bytes, events: seq<Event>, index: nat): (r: seq<Edit>)
    requires WellFormed(events, md) && index < |events|
  {
    match Descendant(events, index, CodeFencedFenceInfo)
    case Some(info) => FenceInfoEdits(md, events, index, info)
    case None =>
      match NthNamed(events, Descendants(events, index), CodeFencedFenceSequence, 1)
      case None => []
      case Some(fence) => FencedChunkEdits(md, events, index) + [Edit(events[fence].point, events[fence].point, RustLabel)]
  }

  /**
   * A fence with an info string is left alone unless the info marks Rust, and then the last
   * edit relabels the info `rust`; without an info string `rust` goes right after the second
   * fence run the scan meets (the opening one of a closed block), and a block with fewer
   * runs is left alone.
   */
  lemma FencedEditsShape(md: Bytes, events: seq<Event>, index: nat)
    requires WellFormed(events, md) && index < |events|
    ensures var es := FencedEdits(md, events, index);
      match Descendant(events, index, CodeFencedFenceInfo)
      case Some(info) =>
        var r := Span(md, events, info);
        && (es == [] <==> !FenceIsRust(TextOf(md, events, info)))
        && (es != [] ==> es[|es| - 1] == Edit(r.start, r.end, RustLabel))
      case None =>
        match NthNamed(events, Descendants(events, index), CodeFencedFenceSequence, 1)
        case None => es == []
        case Some(fence) => es != [] && es[|es| - 1] == Edit(events[fence].point, events[fence].point, RustLabel)
  {
  }

  const OpenRust: Bytes := Ascii("```rust\n")
  const CloseFence: Bytes := Ascii("\n```")

  /** The indented arm as written: hidden lines are removed through their line feed, wherever it is. */
  function IndentedEditsAsWritten(md: Bytes, events: seq<Event>, index: nat): (r: seq<Edit>)
    requires WellFormed(events, md) && index < |events| && events[index].kind == Exit
    ensures var range := Span(md, events, index);
      && |r| >= 2 && r[0] == Edit(range.end, range.end, CloseFence)
      && r[|r| - 1] == Edit(range.start, range.start, OpenRust)
  {
    var range := Span(md, events, index);
    [Edit(range.end, range.end, CloseFence)]
    + ChildrenEdits(md, events, Children(events, index), |md|, true)
    + [Edit(range.start, range.start, OpenRust)]
  }

  /** The indented arm with hidden lines removed no further than the end of the block. */
  function IndentedEdits(md: Bytes, events: seq<Event>, index: nat): (r: seq<Edit>)
    requires WellFormed(events, md) && index < |events| && events[index].kind == Exit
  {
    var range := Span(md, events, index);
    [Edit(range.end, range.end, CloseFence)]
    + ChildrenEdits(md, events, Children(events, index), range.end, true)
    + [Edit(range.start, range.start, OpenRust)]
  }

  /**
   * The block is wrapped in a Rust fence, and every edit between the closing and the
   * opening fence stays inside the block, below the cut the closing fence makes.
   */
  lemma IndentedEditsStayInBlock(md: Bytes, events: seq<Event>, index: nat)
    requires WellFormed(events, md) && index < |events| && events[index].kind == Exit
    ensures var es, range := IndentedEdits(md, events, index), Span(md, events, index);
      && |es| >= 2
      && es[0] == Edit(range.end, range.end, CloseFence)
      && es[|es| - 1] == Edit(range.start, range.start, OpenRust)
      && EndsBy(es[1..|es| - 1], range.end)
  {
    var range := Span(md, events, index);
    var cs := Children(events, index);
    forall k | 0 <= k < |cs|
      ensures events[cs[k]].point <= range.end
    {
      PointsOrdered(events, md, cs[k], index);
    }
    ChildrenEditsEndBy(md, events, cs, range.end, true);
    var mid := ChildrenEdits(md, events, cs, range.end, true);
    var es := IndentedEdits(md, events, index);
    assert es[1..|es| - 1] == mid;
  }

  // ----- links and definitions -----

  /** A link replaced by the text of its labelNode: what an unresolved identifier gets. */
  function Dissolve(md: Bytes, events: seq<Event>, index: nat, labelNode: nat): (r: seq<Edit>)
    requires WellFormed(events, md) && index < |events| && events[index].kind == Exit && labelNode < |events|
    ensures |r| <= 1
  {
    match Child(events, labelNode, LabelText)
    case None => []
    case Some(text) =>
      var range := Span(md, events, index);
      [Edit(range.start, range.end, TextOf(md, events, text))]
  }

  /** An inline link `[labelNode](dest)`: its destination string is looked up. */
  function ResourceEdits(md: Bytes, events: seq<Event>, links: seq<(Bytes, Option<Bytes>)>, index: nat, labelNode: nat, resource: nat): (r: seq<Edit>)
    requires WellFormed(events, md) && index < |events| && events[index].kind == Exit && labelNode < |events| && resource < |events|
    ensures |r| <= 1
  {
    match Child(events, resource, ResourceDestination)
    case None => []
    case Some(dest) =>
      match Descendant(events, dest, ResourceDestinationString)
      case None => []
      case Some(destString) =>
        var key := TextOf(md, events, destString);
        match Lookup(links, key)
        case None => []
        case Some(None) => Dissolve(md, events, index, labelNode)
        case Some(Some(_)) => UrlEdits(md, events, links, dest, key)
  }

  /** A reference link `[labelNode][id]` (or collapsed `[labelNode][]`): only an unresolved identifier changes it. */
  function ReferenceEdits(md: Bytes, events: seq<Event>, links: seq<(Bytes, Option<Bytes>)>, index: nat, labelNode: nat, reference: nat): (r: seq<Edit>)
    requires WellFormed(events, md) && index < |events| && events[index].kind == Exit && labelNode < |events| && reference < |events|
    ensures |r| <= 1
  {
    var id: Option<Bytes> :=
      match Child(events, reference, ReferenceString)
      case Some(s) => Some(TextOf(md, events, s))
      case None =>
        match Child(events, labelNode, LabelText)
        case Some(text) => Some(TextOf(md, events, text))
        case None => None;
    if id.None? then []
    else match Lookup(links, id.value)
      case Some(None) => Dissolve(md, events, index, labelNode)
      case _ => []
  }

  /** A shortcut link `[labelNode]`: looked up by its labelNode text. */
  function ShortcutEdits(md: Bytes, events: seq<Event>, links: seq<(Bytes, Option<Bytes>)>, index: nat, labelNode: nat): (r: seq<Edit>)
    requires WellFormed(events, md) && index < |events| && events[index].kind == Exit && labelNode < |events|
    ensures |r| <= 1
  {
    match Child(events, labelNode, LabelText)
    case None => []
    case Some(text) =>
      match Lookup(links, TextOf(md, events, text))
      case Some(None) => Dissolve(md, events, index, labelNode)
      case _ => []
  }

  /** The link arm. */
  function LinkEdits(md: Bytes, events: seq<Event>, links: seq<(Bytes, Option<Bytes>)>, index: nat): (r: seq<Edit>)
    requires WellFormed(events, md) && index < |events| && events[index].kind == Exit
    ensures |r| <= 1
  {
    match Child(events, index, Label)
    case None => []
    case Some(labelNode) =>
      match Child(events, index, Resource)
      case Some(resource) => ResourceEdits(md, events, links, index, labelNode, resource)
      case None =>
        match Child(events, index, Reference)
        case Some(reference) => ReferenceEdits(md, events, links, index, labelNode, reference)
        case None => ShortcutEdits(md, events, links, index, labelNode)
  }

  /** The definition arm: a placeholder definition is removed through its line feed, a resolved one gets the url. */
  function DefinitionEdits(md: Bytes, events: seq<Event>, links: seq<(Bytes, Option<Bytes>)>, index: nat): (r: seq<Edit>)
    requires WellFormed(events, md) && index < |events| && events[index].kind == Exit
    ensures |r| <= 1
  {
    match Child(events, index, DefinitionDestination)
    case None => []
    case Some(dest) =>
      match Descendant(events, dest, DefinitionDestinationString)
      case None => []
      case Some(destString) =>
        var text := TextOf(md, events, destString);
        if text == Placeholder then [Edit(DefinitionAt(md, events, index).start, DefinitionAt(md, events, index).end, [])]
        else UrlEdits(md, events, links, dest, text)
  }

  /** A destination whose key resolves to a url is replaced by it; anything else is kept. */
  function UrlEdits(md: Bytes, events: seq<Event>, links: seq<(Bytes, Option<Bytes>)>, dest: nat, key: Bytes): (r: seq<Edit>)
    requires WellFormed(events, md) && dest < |events| && events[dest].kind == Exit
    ensures |r| <= 1
  {
    match Lookup(links, key)
    case Some(Some(url)) => [Edit(Span(md, events, dest).start, Span(md, events, dest).end, url)]
    case _ => []
  }

  /** One edit on the bytes `a..b` of a text, applied alone. */
  lemma ApplyOne(s: Bytes, a: nat, b: nat, with: Bytes)
    requires a <= b <= |s| && IsCharBoundary(s, a) && IsCharBoundary(s, b)
    ensures Applied(s, [Edit(a, b, with)]) == Some(s[..a] + with + s[b..])
  {
    assert Fits(s[..a], []);
    assert Fits(s, [Edit(a, b, with)]);
    assert ReplaceRanges(s[..a], []) == s[..a];
  }

  /**
   * An inline link is looked up by its destination string: a url goes to `UrlEdits`
   * (the destination alone is replaced), an unresolved entry dissolves the link, and
   * a destination missing from the table leaves the link alone.
   */
  lemma ResourceLinkOutcomes(md: Bytes, events: seq<Event>, links: seq<(Bytes, Option<Bytes>)>, index: nat, labelNode: nat, resource: nat, dest: nat, destString: nat)
    requires WellFormed(events, md) && index < |events| && events[index].kind == Exit && labelNode < |events| && resource < |events|
    requires Child(events, resource, ResourceDestination) == Some(dest)
    requires Descendant(events, dest, ResourceDestinationString) == Some(destString)
    ensures var key, r := TextOf(md, events, destString), ResourceEdits(md, events, links, index, labelNode, resource);
      && (Lookup(links, key).None? ==> r == [])
      && (Lookup(links, key) == Some(None) ==> r == Dissolve(md, events, index, labelNode))
      && (Lookup(links, key).Some? && Lookup(links, key).value.Some? ==> r == UrlEdits(md, events, links, dest, key))
  {
  }

  /** A link with a resource part is handled by the inline arm. */
  lemma LinkArms(md: Bytes, events: seq<Event>, links: seq<(Bytes, Option<Bytes>)>, index: nat)
    requires WellFormed(events, md) && index < |events| && events[index].kind == Exit
    ensures Child(events, index, Label).None? ==> LinkEdits(md, events, links, index) == []
    ensures Child(events, index, Label).Some? && Child(events, index, Resource).Some? ==>
      LinkEdits(md, events, links, index)
        == ResourceEdits(md, events, links, index, Child(events, index, Label).value, Child(events, index, Resource).value)
  {
  }

  /** Dissolving replaces the link's bytes by the bytes of its label text. */
  lemma DissolveOutcome(md: Bytes, events: seq<Event>, index: nat, labelNode: nat)
    requires WellFormed(events, md) && index < |events| && events[index].kind == Exit && labelNode < |events|
    ensures var r := Span(md, events, index);
      match Child(events, labelNode, LabelText)
      case None => Dissolve(md, events, index, labelNode) == []
      case Some(text) => Applied(md, Dissolve(md, events, index, labelNode)) == Some(md[..r.start] + TextOf(md, events, text) + md[r.end..])
  {
    var r := Span(md, events, index);
    match Child(events, labelNode, LabelText)
    case None =>
    case Some(text) => ApplyOne(md, r.start, r.end, TextOf(md, events, text));
  }

  /** A reference or shortcut link never gets a url: it is kept, or replaced whole by its label text. */
  lemma NonResourceLinksKeepDefinitions(md: Bytes, events: seq<Event>, links: seq<(Bytes, Option<Bytes>)>, index: nat)
    requires WellFormed(events, md) && index < |events| && events[index].kind == Exit
    requires Child(events, index, Resource).None?
    ensures var r := LinkEdits(md, events, links, index);
      r == [] || (Child(events, index, Label).Some? && r == Dissolve(md, events, index, Child(events, index, Label).value))
  {
  }

  /** A placeholder definition disappears with its line feed (on UTF-8 text the byte after a line feed starts a character). */
  lemma PlaceholderDefinitionRemoved(md: Bytes, events: seq<Event>, links: seq<(Bytes, Option<Bytes>)>, index: nat, dest: nat, destString: nat)
    requires WellFormed(events, md) && index < |events| && events[index].kind == Exit
    requires Child(events, index, DefinitionDestination) == Some(dest)
    requires Descendant(events, dest, DefinitionDestinationString) == Some(destString)
    requires TextOf(md, events, destString) == Placeholder
    requires IsCharBoundary(md, DefinitionAt(md, events, index).end)
    ensures var whole := DefinitionAt(md, events, index);
      && whole.start == Span(md, events, index).start
      && Applied(md, DefinitionEdits(md, events, links, index)) == Some(md[..whole.start] + md[whole.end..])
  {
    var whole := DefinitionAt(md, events, index);
    assert DefinitionEdits(md, events, links, index) == [Edit(whole.start, whole.end, [])];
    ApplyRemoval(md, whole.start, whole.end);
  }

  /** Removing `s[a..b]` leaves what surrounds it. */
  lemma ApplyRemoval(s: Bytes, a: nat, b: nat)
    requires a <= b <= |s| && IsCharBoundary(s, a) && IsCharBoundary(s, b)
    ensures Applied(s, [Edit(a, b, [])]) == Some(s[..a] + s[b..])
  {
    ApplyOne(s, a, b, []);
    assert s[..a] + [] == s[..a];
  }

  /** Any other definition gets its url as destination when its destination string is resolved, and is kept otherwise. */
  lemma ResolvedDefinition(md: Bytes, events: seq<Event>, links: seq<(Bytes, Option<Bytes>)>, index: nat, dest: nat, destString: nat)
    requires WellFormed(events, md) && index < |events| && events[index].kind == Exit
    requires Child(events, index, DefinitionDestination) == Some(dest)
    requires Descendant(events, dest, DefinitionDestinationString) == Some(destString)
    requires TextOf(md, events, destString) != Placeholder
    ensures DefinitionEdits(md, events, links, index) == UrlEdits(md, events, links, dest, TextOf(md, events, destString))
  {
  }

  /** `UrlEdits` replaces exactly the destination by the url, or changes nothing. */
  lemma UrlEditsOutcome(md: Bytes, events: seq<Event>, links: seq<(Bytes, Option<Bytes>)>, dest: nat, key: Bytes)
    requires WellFormed(events, md) && dest < |events| && events[dest].kind == Exit
    ensures var d := Span(md, events, dest);
      && (Lookup(links, key).Some? && Lookup(links, key).value.Some? ==>
            Applied(md, UrlEdits(md, events, links, dest, key)) == Some(md[..d.start] + Lookup(links, key).value.value + md[d.end..]))
      && (Lookup(links, key).None? || Lookup(links, key) == Some(None) ==> UrlEdits(md, events, links, dest, key) == [])
  {
    var d := Span(md, events, dest);
    match Lookup(links, key)
    case Some(Some(url)) => ApplyOne(md, d.start, d.end, url);
    case _ =>
  }

  // ----- process_one and rewrite -----

  /** The edits `process_one` issues for the interesting construct that exits at `index`, in issue order. */
  function EditsAt(md: Bytes, events: seq<Event>, opts: Options, index: nat): (r: seq<Edit>)
    requires WellFormed(events, md) && index < |events| && IsInteresting(events, index)
    ensures events[index].name != CodeFenced && events[index].name != CodeIndented ==> |r| <= 1
    ensures events[index].name == CodeIndented ==> |r| >= 2
  {
    match events[index].name
    case HeadingAtx => HeadingEdits(md, events, index, opts.shrinkHeadings)
    case CodeFenced => FencedEdits(md, events, index)
    case CodeIndented => IndentedEdits(md, events, index)
    case Link => LinkEdits(md, events, opts.links, index)
    case Definition => DefinitionEdits(md, events, opts.links, index)
    case _ => []
  }

  /** Every edit the rewrite loop issues from `index` down: the nearest interesting construct first. */
  function AllEdits(md: Bytes, events: seq<Event>, opts: Options, index: nat): (r: seq<Edit>)
    requires WellFormed(events, md) && index <= |events|
    decreases index
  {
    match FindAnyOf(events, index)
    case None => []
    case Some(i) => EditsAt(md, events, opts, i) + AllEdits(md, events, opts, i)
  }

  /** Issues `es` to the replacer one by one; `ok` is false (the source panics) as soon as one does not fit. */
  method Issue(out: StringReplacer, es: seq<Edit>) returns (ok: bool)
    requires out.Valid()
    modifies out
    ensures out.Valid()
    ensures ok == Fits(old(out.rest), es)
    ensures ok ==> out.edits == old(out.edits) + es && out.rest == Untouched(old(out.rest), es)
  {
    ghost var rest0 := out.rest;
    ghost var edits0 := out.edits;
    var i := 0;
    while i < |es|
      invariant 0 <= i <= |es| && out.Valid()
      invariant Fits(rest0, es[..i]) && out.edits == edits0 + es[..i] && out.rest == Untouched(rest0, es[..i])
    {
      var e := es[i];
      IssueOne(rest0, es, i);
      Markdown.Assoc3(edits0, es[..i], [e]);
      var step := out.Replace(e.start, e.end, e.with);
      if !step {
        return false;
      }
      i := i + 1;
    }
    assert es[..i] == es;
    return true;
  }

  /** Issuing `es[i]` after `es[..i]`: it fits what they left untouched, or no longer list from them fits. */
  lemma IssueOne(rest: Bytes, es: seq<Edit>, i: nat)
    requires i < |es| && Fits(rest, es[..i])
    ensures es[..i + 1] == es[..i] + [es[i]]
    ensures Fits(rest, es[..i + 1]) == Accepts(Untouched(rest, es[..i]), es[i].start, es[i].end)
    ensures Fits(rest, es[..i + 1]) ==> Untouched(rest, es[..i + 1]) == Untouched(rest, es[..i])[..es[i].start]
    ensures !Fits(rest, es[..i + 1]) ==> !Fits(rest, es)
  {
    var e := es[i];
    assert es[..i + 1] == es[..i] + [e];
    assert [e][0] == e && [e][1..] == [];
    FitsThen(rest, es[..i], [e]);
    FitsThen(rest, es[..i + 1], es[i + 1..]);
    assert es[..i + 1] + es[i + 1..] == es;
  }

  /** `process_one`: the construct's edits, issued to the replacer. */
  method ProcessOne(out: StringReplacer, opts: Options, md: Bytes, events: seq<Event>, index: nat) returns (ok: bool)
    requires WellFormed(events, md) && index < |events| && IsInteresting(events, index)
    requires out.Valid()
    modifies out
    ensures out.Valid()
    ensures ok == Fits(old(out.rest), EditsAt(md, events, opts, index))
    ensures ok ==> out.edits == old(out.edits) + EditsAt(md, events, opts, index)
    ensures ok ==> out.rest == Untouched(old(out.rest), EditsAt(md, events, opts, index))
  {
    ok := Issue(out, EditsAt(md, events, opts, index));
  }

  /**
   * `rewrite`: with no events the markdown comes back as it is; otherwise the result is
   * the markdown with every construct's edits applied, or `None` where the source
   * panics because some edit does not fit the untouched prefix.
   */
  method Rewrite(md: Bytes, events: seq<Event>, opts: Options) returns (r: Option<Bytes>)
    requires WellFormed(events, md)
    ensures events == [] ==> r == Some(md)
    ensures events != [] ==> r == Applied(md, AllEdits(md, events, opts, |events|))
  {
    if |events| == 0 {
      return Some(md);
    }
    var out := new StringReplacer(md);
    var index: nat := |events|;
    ghost var all := AllEdits(md, events, opts, |events|);
    var next := FindAnyOf(events, index);
    while next.Some?
      invariant index <= |events| && next == FindAnyOf(events, index)
      invariant out.Valid() && out.original == md
      invariant Fits(md, out.edits) && all == out.edits + AllEdits(md, events, opts, index)
      decreases index
    {
      AllEditsStep(md, events, opts, index);
      index := next.value;
      ghost var before := out.edits;
      ghost var here := EditsAt(md, events, opts, index);
      ghost var later := AllEdits(md, events, opts, index);
      IssueStep(md, before, here, later);
      Markdown.Assoc3(before, here, later);
      assert all == (before + here) + later;
      var ok := ProcessOne(out, opts, md, events, index);
      if !ok {
        assert !Fits(md, all);
        return None;
      }
      assert out.edits == before + here;
      next := FindAnyOf(events, index);
    }
    AllEditsStep(md, events, opts, index);
    ghost var done := out.edits;
    assert done + [] == done;
    var s := out.Finish();
    assert Applied(md, done) == Some(s);
    return Some(s);
  }

  /** One turn of the loop: the construct's edits fit what the earlier ones left untouched, or the whole run panics. */
  lemma IssueStep(md: Bytes, before: seq<Edit>, here: seq<Edit>, later: seq<Edit>)
    requires Fits(md, before)
    ensures Cut(|md|, before) <= |md|
    ensures !Fits(md[..Cut(|md|, before)], here) ==> !Fits(md, (before + here) + later)
    ensures Fits(md[..Cut(|md|, before)], here) ==> Fits(md, before + here)
  {
    UntouchedOriginal(md, before);
    FitsThen(md, before, here);
    FitsThen(md, before + here, later);
  }

  /** `rewrite_markdown`: the definitions are added first, and `events` is the event stream of that text. */
  method RewriteMarkdown(md: Bytes, events: seq<Event>, opts: Options) returns (r: Option<Bytes>)
    requires WellFormed(events, WithDefinitions(md, opts.links))
    ensures var full := WithDefinitions(md, opts.links);
      r == if events == [] then Some(full) else Applied(full, AllEdits(full, events, opts, |events|))
  {
    var full := AddDefinitions(md, opts.links);
    r := Rewrite(full, events, opts);
  }

  /** The loop visits a strictly smaller index each time, so it issues each construct's edits once, nearest to the end first. */
  lemma AllEditsStep(md: Bytes, events: seq<Event>, opts: Options, index: nat)
    requires WellFormed(events, md) && index <= |events|
    ensures FindAnyOf(events, index).None? ==> AllEdits(md, events, opts, index) == []
    ensures FindAnyOf(events, index).Some? ==> FindAnyOf(events, index).value < index
    ensures FindAnyOf(events, index).Some? ==>
      AllEdits(md, events, opts, index)
        == EditsAt(md, events, opts, FindAnyOf(events, index).value) + AllEdits(md, events, opts, FindAnyOf(events, index).value)
  {
  }

  // ----- two inputs where the source goes wrong -----

  /**
   * `    # x\n`: an indented code block whose only line is hidden, and the block's events
   * (the tokenizer's events for the line ending after it produce no edits and are left out).
   */
  const HiddenMd: Bytes := [32, 32, 32, 32, 35, 32, 120, 10]
  const HiddenEvents: seq<Event> := [
    Event(Enter, CodeIndented, 0), Event(Enter, SpaceOrTab, 0), Event(Exit, SpaceOrTab, 4),
    Event(Enter, CodeFlowChunk, 4), Event(Exit, CodeFlowChunk, 7), Event(Exit, CodeIndented, 7)]

  lemma HiddenEnters()
    ensures NearestEnter(HiddenEvents, SpaceOrTab, 2) == Some(1)
    ensures NearestEnter(HiddenEvents, CodeFlowChunk, 4) == Some(3)
    ensures NearestEnter(HiddenEvents, CodeIndented, 5) == Some(0)
  {
  }

  lemma HiddenWellFormed()
    ensures WellFormed(HiddenEvents, HiddenMd)
  {
    HiddenEventsOk();
    forall k | 0 <= k < |HiddenEvents|
      ensures EventOk(HiddenEvents, HiddenMd, k)
    {
      assert k in {0, 1, 2, 3, 4, 5};
    }
  }

  lemma HiddenEventsOk()
    ensures EventOk(HiddenEvents, HiddenMd, 0) && EventOk(HiddenEvents, HiddenMd, 1)
    ensures EventOk(HiddenEvents, HiddenMd, 2) && EventOk(HiddenEvents, HiddenMd, 3)
    ensures EventOk(HiddenEvents, HiddenMd, 4) && EventOk(HiddenEvents, HiddenMd, 5)
  {
    HiddenEnters();
  }

  lemma HiddenChildren()
    ensures Children(HiddenEvents, 5) == [4, 2]
  {
    assert Scan(HiddenEvents, 5, 0) == [(4, 1), (3, 0), (2, 1), (1, 0)];
  }

  /** The block, its chunk and its indentation. */
  lemma HiddenSpans()
    ensures WellFormed(HiddenEvents, HiddenMd)
    ensures Span(HiddenMd, HiddenEvents, 5) == Range(0, 7)
    ensures Span(HiddenMd, HiddenEvents, 4) == Range(4, 7)
    ensures Span(HiddenMd, HiddenEvents, 2) == Range(0, 4)
  {
    HiddenWellFormed();
    HiddenEnters();
  }

  /** Cleaning the chunk `# x` removes the line through its line feed, or up to the block's end. */
  lemma HiddenChunk()
    ensures ChunkEdits(HiddenMd, Range(4, 7), |HiddenMd|) == [Edit(4, 8, [])]
    ensures ChunkEdits(HiddenMd, Range(4, 7), 7) == [Edit(4, 7, [])]
  {
    var line := HiddenMd[4..7];
    assert line == [35, 32, 120];
    assert WhitespaceAt(line) == 0;
    assert HiddenMd[7..] == [LF];
    assert IndexOf(HiddenMd[7..], LF) == Some(0);
  }

  /** The pieces the indented-block edits are made of. */
  lemma HiddenPieces()
    ensures WellFormed(HiddenEvents, HiddenMd)
    ensures Span(HiddenMd, HiddenEvents, 5) == Range(0, 7)
    ensures Span(HiddenMd, HiddenEvents, 4) == Range(4, 7)
    ensures Span(HiddenMd, HiddenEvents, 2) == Range(0, 4)
    ensures ChunkEdits(HiddenMd, Range(4, 7), |HiddenMd|) == [Edit(4, 8, [])]
    ensures ChunkEdits(HiddenMd, Range(4, 7), 7) == [Edit(4, 7, [])]
  {
    HiddenSpans();
    HiddenChunk();
  }

  lemma HiddenEditsAsWritten()
    ensures WellFormed(HiddenEvents, HiddenMd)
    ensures IndentedEditsAsWritten(HiddenMd, HiddenEvents, 5)
      == [Edit(7, 7, CloseFence), Edit(4, 8, []), Edit(0, 4, []), Edit(0, 0, OpenRust)]
  {
    var md, ev := HiddenMd, HiddenEvents;
    HiddenPieces();
    HiddenChildren();
    assert ChildrenEdits(md, ev, [4, 2], |md|, true) == [Edit(4, 8, []), Edit(0, 4, [])];
  }

  lemma HiddenEditsCorrected()
    ensures WellFormed(HiddenEvents, HiddenMd)
    ensures IndentedEdits(HiddenMd, HiddenEvents, 5)
      == [Edit(7, 7, CloseFence), Edit(4, 7, []), Edit(0, 4, []), Edit(0, 0, OpenRust)]
  {
    var md, ev := HiddenMd, HiddenEvents;
    HiddenPieces();
    HiddenChildren();
    assert ChildrenEdits(md, ev, [4, 2], 7, true) == [Edit(4, 7, []), Edit(0, 4, [])];
  }

  /**
   * As written, the hidden line is removed through its line feed, which lies past the
   * block where the closing fence was inserted just before: the replacer panics.
   */
  lemma HiddenLastLinePanics()
    ensures WellFormed(HiddenEvents, HiddenMd)
    ensures Applied(HiddenMd, IndentedEditsAsWritten(HiddenMd, HiddenEvents, 5)) == None
  {
    HiddenEditsAsWritten();
    var es := [Edit(7, 7, CloseFence), Edit(4, 8, []), Edit(0, 4, []), Edit(0, 0, OpenRust)];
    assert es[1..][0] == Edit(4, 8, []);
    assert !Fits(HiddenMd[..7], es[1..]);
  }

  /** Three removals and inserts at the front of `    # x`, as the corrected edits make them. */
  lemma HiddenFront()
    ensures Applied(HiddenMd[..7], [Edit(4, 7, []), Edit(0, 4, []), Edit(0, 0, OpenRust)]) == Some(OpenRust)
  {
    var front := HiddenMd[..7];
    var es := [Edit(4, 7, []), Edit(0, 4, []), Edit(0, 0, OpenRust)];
    var tail := [Edit(0, 4, []), Edit(0, 0, OpenRust)];
    assert es[1..] == tail && tail[1..] == [Edit(0, 0, OpenRust)];
    assert front[..4][..0] == [] && |front| == 7 && front[4] == 35;
    assert Fits([], tail[1..]);
    assert Accepts(front[..4], 0, 4);
    assert Fits(front[..4], tail);
    assert Accepts(front, 4, 7);
    assert Fits(front, es);
    FitsBackToFront(front, es);
    assert ReplaceRanges(front[..4][..0], tail[1..]) == OpenRust;
    assert front[..4][4..] == [] && front[7..] == [];
    assert ReplaceRanges(front[..4], tail) == OpenRust;
    assert ReplaceRanges(front, es) == OpenRust;
  }

  /** Removing the hidden line only up to the block's end wraps the block as intended. */
  lemma HiddenLastLineWrapped()
    ensures WellFormed(HiddenEvents, HiddenMd)
    ensures Applied(HiddenMd, IndentedEdits(HiddenMd, HiddenEvents, 5)) == Some(OpenRust + CloseFence + [LF])
  {
    HiddenEditsCorrected();
    HiddenFront();
    var good := [Edit(7, 7, CloseFence), Edit(4, 7, []), Edit(0, 4, []), Edit(0, 0, OpenRust)];
    assert good[1..] == [Edit(4, 7, []), Edit(0, 4, []), Edit(0, 0, OpenRust)];
    assert HiddenMd[7..] == [LF];
    assert Fits(HiddenMd, good);
  }

  /**
   * `# a #`: an ATX heading with a closing run of hashes, and its events (the blanks'
   * `SpaceOrTab` events produce no edits and are left out; `OtherName` stands for the text).
   */
  const ClosedMd: Bytes := [35, 32, 97, 32, 35]
  const ClosedEvents: seq<Event> := [
    Event(Enter, HeadingAtx, 0), Event(Enter, HeadingAtxSequence, 0), Event(Exit, HeadingAtxSequence, 1),
    Event(Enter, OtherName, 2), Event(Exit, OtherName, 3),
    Event(Enter, HeadingAtxSequence, 4), Event(Exit, HeadingAtxSequence, 5), Event(Exit, HeadingAtx, 5)]

  lemma ClosedEnters()
    ensures NearestEnter(ClosedEvents, HeadingAtxSequence, 2) == Some(1)
    ensures NearestEnter(ClosedEvents, OtherName, 4) == Some(3)
    ensures NearestEnter(ClosedEvents, HeadingAtxSequence, 6) == Some(5)
    ensures NearestEnter(ClosedEvents, HeadingAtx, 7) == Some(0)
  {
  }

  lemma ClosedWellFormed()
    ensures WellFormed(ClosedEvents, ClosedMd)
  {
    ClosedEventsOk();
    forall k | 0 <= k < |ClosedEvents|
      ensures EventOk(ClosedEvents, ClosedMd, k)
    {
      assert k in {0, 1, 2, 3, 4, 5, 6, 7};
    }
  }

  lemma ClosedEventsOk()
    ensures EventOk(ClosedEvents, ClosedMd, 0) && EventOk(ClosedEvents, ClosedMd, 1)
    ensures EventOk(ClosedEvents, ClosedMd, 2) && EventOk(ClosedEvents, ClosedMd, 3)
    ensures EventOk(ClosedEvents, ClosedMd, 4) && EventOk(ClosedEvents, ClosedMd, 5)
    ensures EventOk(ClosedEvents, ClosedMd, 6) && EventOk(ClosedEvents, ClosedMd, 7)
  {
    ClosedEnters();
  }

  /** The heading's children, nearest the end first: the closing run, the text, the opening run. */
  lemma ClosedChildren()
    ensures Children(ClosedEvents, 7) == [6, 4, 2]
  {
    assert Scan(ClosedEvents, 7, 0) == [(6, 1), (5, 0), (4, 1), (3, 0), (2, 1), (1, 0)];
  }

  lemma ClosedRuns()
    ensures WellFormed(ClosedEvents, ClosedMd)
    ensures Child(ClosedEvents, 7, HeadingAtxSequence) == Some(6)
    ensures LastChild(ClosedEvents, 7, HeadingAtxSequence) == Some(2)
    ensures Span(ClosedMd, ClosedEvents, 6) == Range(4, 5)
    ensures Span(ClosedMd, ClosedEvents, 2) == Range(0, 1)
  {
    ClosedWellFormed();
    ClosedEnters();
    ClosedChildren();
    assert ClosedEvents[6].name == HeadingAtxSequence && ClosedEvents[4].name != HeadingAtxSequence;
  }

  /** One level down from a single `#` is two hashes. */
  lemma ClosedHashEdits()
    ensures WellFormed(ClosedEvents, ClosedMd)
    ensures HashEdit(ClosedMd, ClosedEvents, 6, 1) == Edit(4, 5, [Hash, Hash])
    ensures HashEdit(ClosedMd, ClosedEvents, 2, 1) == Edit(0, 1, [Hash, Hash])
  {
    ClosedClosingEdit();
    ClosedOpeningEdit();
  }

  lemma TwoHashes()
    ensures Hashes[..2] == [Hash, Hash]
  {
    assert Hashes[..2][0] == Hash && Hashes[..2][1] == Hash;
  }

  /** The closing run of `# a #`, doubled. */
  lemma ClosedClosingEdit()
    ensures WellFormed(ClosedEvents, ClosedMd)
    ensures HashEdit(ClosedMd, ClosedEvents, 6, 1) == Edit(4, 5, [Hash, Hash])
  {
    ClosedRuns();
    assert AsI8(5 - 4) == 1 && NewLevel(1, 1) == 2;
    TwoHashes();
  }

  /** The opening run of `# a #`, doubled. */
  lemma ClosedOpeningEdit()
    ensures WellFormed(ClosedEvents, ClosedMd)
    ensures HashEdit(ClosedMd, ClosedEvents, 2, 1) == Edit(0, 1, [Hash, Hash])
  {
    ClosedRuns();
    assert AsI8(1 - 0) == 1 && NewLevel(1, 1) == 2;
    TwoHashes();
  }

  /** The two one-edit rewrites of `# a #`: doubling the closing run, or the opening one. */
  lemma ClosedOutputs()
    ensures Applied(ClosedMd, [Edit(4, 5, [Hash, Hash])]) == Some([35, 32, 97, 32, 35, 35])
    ensures Applied(ClosedMd, [Edit(0, 1, [Hash, Hash])]) == Some([35, 35, 32, 97, 32, 35])
  {
    ApplyOne(ClosedMd, 4, 5, [Hash, Hash]);
    assert ClosedMd[..4] + [Hash, Hash] + ClosedMd[5..] == [35, 32, 97, 32, 35, 35];
    ApplyOne(ClosedMd, 0, 1, [Hash, Hash]);
    assert ClosedMd[..0] + [Hash, Hash] + ClosedMd[1..] == [35, 35, 32, 97, 32, 35];
  }

  lemma ClosedArms()
    ensures WellFormed(ClosedEvents, ClosedMd)
    ensures HeadingEditsAsWritten(ClosedMd, ClosedEvents, 7, 1) == [Edit(4, 5, [Hash, Hash])]
    ensures HeadingEdits(ClosedMd, ClosedEvents, 7, 1) == [Edit(0, 1, [Hash, Hash])]
  {
    ClosedRuns();
    ClosedHashEdits();
  }

  /**
   * As written, shrinking `# a #` by one level doubles the closing run and leaves the
   * heading at level 1; taking the opening run makes it the level-2 heading `## a #`.
   */
  lemma ClosedHeadingKeepsLevel()
    ensures WellFormed(ClosedEvents, ClosedMd)
    ensures Applied(ClosedMd, HeadingEditsAsWritten(ClosedMd, ClosedEvents, 7, 1)) == Some([35, 32, 97, 32, 35, 35])
  {
    ClosedArms();
    ClosedOutputs();
  }

  lemma ClosedHeadingShrunk()
    ensures WellFormed(ClosedEvents, ClosedMd)
    ensures Applied(ClosedMd, HeadingEdits(ClosedMd, ClosedEvents, 7, 1)) == Some([35, 35, 32, 97, 32, 35])
  {
    ClosedArms();
    ClosedOutputs();
  }

  /** The edits from `n` down end with those from just above any interesting index below `n`. */
  lemma {:induction false} AllEditsSuffix(md: Bytes, events: seq<Event>, opts: Options, n: nat, i: nat)
    requires WellFormed(events, md) && i < n <= |events| && IsInteresting(events, i)
    ensures EndsWith(AllEdits(md, events, opts, n), AllEdits(md, events, opts, i + 1))
    decreases n
  {
    AllEditsStep(md, events, opts, n);
    var j := FindAnyOf(events, n).value;
    var all := AllEdits(md, events, opts, n);
    if j == i {
      assert all[|all| - |all|..] == all;
    } else {
      AllEditsSuffix(md, events, opts, j, i);
      EndsWithPrepend(EditsAt(md, events, opts, j), AllEdits(md, events, opts, j), AllEdits(md, events, opts, i + 1));
    }
  }

  /** Issuing one edit cuts the untouched text to its start, so a next edit ending past that start panics. */
  lemma CutThenPanics(rest: Bytes, before: seq<Edit>, e: Edit, later: seq<Edit>)
    requires later != [] && later[0].end > e.start
    ensures !Fits(rest, before + ([e] + later))
  {
    FitsThen(rest, before, [e] + later);
    if Fits(rest, before) {
      var u := Untouched(rest, before);
      assert ([e] + later)[1..] == later;
      assert !Accepts(u[..Min(e.start, |u|)], later[0].start, later[0].end);
    }
  }

  /**
   * A construct nested in an ATX heading: the heading's Exit follows the Exits inside it, so
   * the loop replaces the run of hashes first and the untouched prefix is cut to the run's
   * start; when the next interesting construct below has an edit ending after that start (a
   * dissolved or resolved link in the heading text), the rewrite panics.
   */
  lemma EditInsideHeadingPanics(md: Bytes, events: seq<Event>, opts: Options, h: nat, l: nat)
    requires WellFormed(events, md) && h < |events| && events[h].kind == Exit && events[h].name == HeadingAtx
    requires HeadingEdits(md, events, h, opts.shrinkHeadings) != []
    requires FindAnyOf(events, h) == Some(l) && EditsAt(md, events, opts, l) != []
    requires EditsAt(md, events, opts, l)[0].end > HeadingEdits(md, events, h, opts.shrinkHeadings)[0].start
    ensures Applied(md, AllEdits(md, events, opts, |events|)) == None
  {
    var heading := HeadingEdits(md, events, h, opts.shrinkHeadings)[0];
    var later := EditsAt(md, events, opts, l) + AllEdits(md, events, opts, l);
    HeadingThenNext(md, events, opts, h, l);
    AllEditsSuffix(md, events, opts, |events|, h);
    SuffixPanics(md, AllEdits(md, events, opts, |events|), heading, later);
  }

  /** A list of edits that ends with an edit and then one ending past its start panics. */
  lemma SuffixPanics(md: Bytes, all: seq<Edit>, e: Edit, later: seq<Edit>)
    requires EndsWith(all, [e] + later) && later != [] && later[0].end > e.start
    ensures Applied(md, all) == None
  {
    var tail := [e] + later;
    var before := all[..|all| - |tail|];
    assert all == before + tail;
    CutThenPanics(md, before, e, later);
  }

  /** From just above the heading the loop issues the heading's edit, then the next construct's. */
  lemma HeadingThenNext(md: Bytes, events: seq<Event>, opts: Options, h: nat, l: nat)
    requires WellFormed(events, md) && h < |events| && events[h].kind == Exit && events[h].name == HeadingAtx
    requires HeadingEdits(md, events, h, opts.shrinkHeadings) != []
    requires FindAnyOf(events, h) == Some(l)
    ensures AllEdits(md, events, opts, h + 1)
      == [HeadingEdits(md, events, h, opts.shrinkHeadings)[0]] + (EditsAt(md, events, opts, l) + AllEdits(md, events, opts, l))
  {
    assert IsInteresting(events, h);
    AllEditsStep(md, events, opts, h + 1);
    AllEditsStep(md, events, opts, h);
    assert EditsAt(md, events, opts, h) == HeadingEdits(md, events, h, opts.shrinkHeadings);
  }
}
