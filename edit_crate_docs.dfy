/**
 * Editing the crate documentation inside `lib.rs`: the inner doc attributes become fragments,
 * their common indentation is computed, their lines are combined into one markdown text with a
 * map from each byte back to its fragment, and a section of that text is replaced by writing
 * `//!` lines between the attributes that hold the section's markers.
 */
module EditCrateDocs {
  import opened Wrappers
  import opened Seqs
  import opened Text

  const LF: byte := 10
  const CR: byte := 13
  const Space: byte := 32
  const Tab: byte := 9
  /** The bytes of `//!`. */
  const DocComment: Bytes := [47, 47, 33]

  /** `usize::MAX`, the minimum of no indentation at all. */
  const UsizeMax: nat := 0xFFFF_FFFF_FFFF_FFFF

  function Min(a: nat, b: nat): nat
  {
    if a <= b then a else b
  }

  datatype FragmentKind = SugaredDoc | RawDoc

  datatype CommentKind = Block | Line

  /** A byte range `start..end`. */
  datatype Span = Span(start: nat, end: nat)

  /** One inner doc attribute: where it sits in the source, its text and how it was written. */
  datatype Fragment = Fragment(attrSpan: Span, doc: Bytes, kind: FragmentKind, comment: CommentKind, indent: nat)

  // ----- classifying an attribute by how it starts -----

  datatype Classified = Classified(kind: FragmentKind, comment: CommentKind) | BadStart(shown: string)

  /** The start of the attribute that the error message quotes: its first three characters. */
  function ShownStart(raw: string): (r: string)
    ensures StartsWith(raw, r) && |r| == Min(3, |raw|)
  {
    raw[..Min(3, |raw|)]
  }

  // `//!` is a sugared line comment, `/*!` a sugared block comment, `#![` a raw attribute; anything else is refused.
  function Classify(raw: string): (r: Classified)
    ensures StartsWith(raw, "//!") ==> r == Classified(SugaredDoc, Line)
    ensures StartsWith(raw, "/*!") ==> r == Classified(SugaredDoc, Block)
    ensures StartsWith(raw, "#![") ==> r == Classified(RawDoc, Line)
    ensures r.BadStart? <==> !StartsWith(raw, "//!") && !StartsWith(raw, "/*!") && !StartsWith(raw, "#![")
    ensures r.BadStart? ==> r.shown == ShownStart(raw)
  {
    if StartsWith(raw, "//!") then Classified(SugaredDoc, Line)
    else if StartsWith(raw, "/*!") then Classified(SugaredDoc, Block)
    else if StartsWith(raw, "#![") then Classified(RawDoc, Line)
    else BadStart(ShownStart(raw))
  }

  /** Only the first three characters decide the classification. */
  lemma ClassifyByPrefix(raw: string)
    requires |raw| >= 3
    ensures Classify(raw) == Classify(raw[..3])
  {
    assert raw[..3][..3] == raw[..3];
  }

  /**
   * The quoted start as the source computes it: up to the offset of the third character, which
   * leaves that character out.
   */
  function ShownStartAsWritten(raw: string): (r: string)
    ensures StartsWith(raw, r)
  {
    var taken := Min(3, |raw|);
    raw[..if taken == 0 then 0 else taken - 1]
  }

  /** A raw attribute written with a space, `#! [doc = ...]`, is quoted as `#!` instead of `#! `. */
  lemma ShownStartDropsThirdChar(raw: string)
    requires |raw| >= 3
    ensures |ShownStartAsWritten(raw)| == 2 && |ShownStart(raw)| == 3
    ensures ShownStartAsWritten("#! [doc = \"x\"]") == "#!" && ShownStart("#! [doc = \"x\"]") == "#! "
  {
  }

  // ----- indentation -----

  predicate IsBlank(b: byte)
  {
    b == Space || b == Tab
  }

  /** The number of spaces and tabs a line starts with. */
  function LeadingBlanks(line: Bytes): (n: nat)
    ensures n <= |line|
    ensures forall k :: 0 <= k < n ==> IsBlank(line[k])
    ensures n == |line| || !IsBlank(line[n])
  {
    if line == [] || !IsBlank(line[0]) then 0 else 1 + LeadingBlanks(line[1..])
  }

  /** A line holding something other than whitespace. */
  predicate HasText(line: Bytes)
  {
    !AllWhitespaceBytes(line)
  }

  /** Two neighbouring fragments are written differently. */
  predicate Mixed(docs: seq<Fragment>)
    decreases |docs|
  {
    |docs| >= 2 && (docs[0].kind != docs[1].kind || Mixed(docs[1..]))
  }

  predicate AnySugared(docs: seq<Fragment>)
  {
    exists k :: 0 <= k < |docs| && docs[k].kind == SugaredDoc
  }

  /** The extra indentation counted on raw fragments when sugared and raw ones are mixed. */
  function Add(docs: seq<Fragment>): nat
  {
    if Mixed(docs) && AnySugared(docs) then 1 else 0
  }

  /** Some neighbours differ exactly when some fragment differs from the first. */
  lemma {:induction false} MixedIff(docs: seq<Fragment>)
    ensures Mixed(docs) <==> exists k :: 0 <= k < |docs| && docs[k].kind != docs[0].kind
    decreases |docs|
  {
    if |docs| >= 2 {
      var rest := docs[1..];
      MixedIff(rest);
      if docs[0].kind == docs[1].kind {
        assert forall k :: 1 <= k < |docs| ==> docs[k] == rest[k - 1];
      } else {
        assert docs[1].kind != docs[0].kind;
      }
    }
  }

  /** `add` is 1 exactly when the kinds are mixed: a mix always holds a sugared fragment. */
  lemma AddIsMixed(docs: seq<Fragment>)
    ensures Add(docs) == 1 <==> Mixed(docs)
    ensures Add(docs) == 0 <==> forall k :: 0 <= k < |docs| ==> docs[k].kind == docs[0].kind
  {
    MixedIff(docs);
    if Mixed(docs) {
      var k :| 0 <= k < |docs| && docs[k].kind != docs[0].kind;
      if docs[k].kind == SugaredDoc {
        assert AnySugared(docs);
      } else {
        assert docs[0].kind == SugaredDoc;
        assert AnySugared(docs);
      }
    }
  }

  function KindExtra(f: Fragment, add: nat): nat
  {
    if f.kind == SugaredDoc then 0 else add
  }

  /** The least `leading blanks + extra` over the lines with text, `usize::MAX` when there are none. */
  function LinesMin(lines: seq<Bytes>, extra: nat): (m: nat)
    ensures m <= UsizeMax
    ensures forall l :: l in lines && HasText(l) ==> m <= LeadingBlanks(l) + extra
    ensures m < UsizeMax ==> exists l :: l in lines && HasText(l) && m == LeadingBlanks(l) + extra
    ensures (exists l :: l in lines && HasText(l) && LeadingBlanks(l) + extra < UsizeMax) ==> m < UsizeMax
  {
    if lines == [] then UsizeMax
    else
      var rest := LinesMin(lines[1..], extra);
      assert forall l :: l in lines[1..] ==> l in lines;
      if HasText(lines[0]) then Min(LeadingBlanks(lines[0]) + extra, rest) else rest
  }

  function FragMin(f: Fragment, add: nat): nat
  {
    LinesMin(Lines(f.doc, LF, CR), KindExtra(f, add))
  }

  /** The least of some numbers. */
  function SeqMin(xs: seq<nat>): nat
    requires xs != []
  {
    if |xs| == 1 then xs[0] else Min(xs[0], SeqMin(xs[1..]))
  }

  /** `SeqMin` is a lower bound of the numbers and is one of them. */
  lemma {:induction false} SeqMinBounds(xs: seq<nat>)
    requires xs != []
    ensures forall k :: 0 <= k < |xs| ==> SeqMin(xs) <= xs[k]
    ensures exists k :: 0 <= k < |xs| && SeqMin(xs) == xs[k]
    decreases |xs|
  {
    if |xs| > 1 {
      var rest := xs[1..];
      SeqMinBounds(rest);
      assert forall k :: 1 <= k < |xs| ==> xs[k] == rest[k - 1];
      var j :| 0 <= j < |rest| && SeqMin(rest) == rest[j];
      if xs[0] > SeqMin(rest) {
        assert SeqMin(xs) == xs[j + 1];
      }
    } else {
      assert SeqMin(xs) == xs[0];
    }
  }

  /** Every fragment's own minimum. */
  function FragMins(docs: seq<Fragment>, add: nat): (r: seq<nat>)
    ensures |r| == |docs| && forall k :: 0 <= k < |docs| ==> r[k] == FragMin(docs[k], add)
  {
    seq(|docs|, k requires 0 <= k < |docs| => FragMin(docs[k], add))
  }

  /** The least indentation over all fragments. */
  function FragsMin(docs: seq<Fragment>, add: nat): nat
    requires docs != []
  {
    SeqMin(FragMins(docs, add))
  }

  /** `FragsMin` is a lower bound of every fragment's minimum and is one of them. */
  lemma FragsMinBounds(docs: seq<Fragment>, add: nat)
    requires docs != []
    ensures forall k {:trigger FragMin(docs[k], add)} :: 0 <= k < |docs| ==> FragsMin(docs, add) <= FragMin(docs[k], add)
    ensures exists k :: 0 <= k < |docs| && FragsMin(docs, add) == FragMin(docs[k], add)
  {
    var mins := FragMins(docs, add);
    SeqMinBounds(mins);
    var j :| 0 <= j < |mins| && SeqMin(mins) == mins[j];
    assert FragsMin(docs, add) == FragMin(docs[j], add);
  }

  /** A raw fragment gives back the extra it was counted with. */
  function IndentFor(f: Fragment, minIndent: nat, add: nat): nat
    requires add <= 1
  {
    if f.kind != SugaredDoc && minIndent > 0 then minIndent - add else minIndent
  }

  /** Every fragment with the indentation its lines will be stripped of. */
  function Unindented(docs: seq<Fragment>): (r: seq<Fragment>)
    ensures |r| == |docs|
    ensures forall k :: 0 <= k < |docs| ==> r[k] == docs[k].(indent := r[k].indent)
  {
    if docs == [] then docs
    else
      var add := Add(docs);
      Reindented(docs, FragsMin(docs, add), add)
  }

  /** Every fragment with the indentation that the minimum `m` and the extra `add` give it. */
  function Reindented(docs: seq<Fragment>, m: nat, add: nat): (r: seq<Fragment>)
    requires add <= 1
    ensures |r| == |docs|
    ensures forall k :: 0 <= k < |docs| ==> r[k] == docs[k].(indent := IndentFor(docs[k], m, add))
  {
    seq(|docs|, k requires 0 <= k < |docs| => docs[k].(indent := IndentFor(docs[k], m, add)))
  }

  /** Write each fragment's indentation in place. */
  method Unindent(docs: array<Fragment>)
    modifies docs
    ensures forall k :: 0 <= k < docs.Length ==> docs[k] == Unindented(old(docs[..]))[k]
  {
    if docs.Length == 0 {
      return;
    }
    var add := Add(docs[..]);
    var minIndent := FragsMin(docs[..], add);
    SetIndents(docs, minIndent, add);
  }

  /** The loop that stores the indentation: a raw fragment gives back the extra it was counted with. */
  method SetIndents(docs: array<Fragment>, minIndent: nat, add: nat)
    requires add <= 1
    modifies docs
    ensures forall k :: 0 <= k < docs.Length ==> docs[k] == Reindented(old(docs[..]), minIndent, add)[k]
  {
    ghost var before := docs[..];
    for i := 0 to docs.Length
      invariant forall k :: 0 <= k < i ==> docs[k] == before[k].(indent := IndentFor(before[k], minIndent, add))
      invariant forall k :: i <= k < docs.Length ==> docs[k] == before[k]
    {
      var fragment := docs[i];
      var indent := if fragment.kind != SugaredDoc && minIndent > 0 then minIndent - add else minIndent;
      docs[i] := fragment.(indent := indent);
    }
  }

  /** Every line with text starts with at least `indent` spaces or tabs. */
  predicate IndentIsBlank(f: Fragment)
  {
    forall l :: l in Lines(f.doc, LF, CR) && HasText(l) ==> f.indent <= LeadingBlanks(l)
  }

  /** The computed indentation never reaches past a line's leading blanks, so stripping it removes only spaces and tabs. */
  lemma UnindentBlank(docs: seq<Fragment>, k: nat)
    requires k < |docs|
    ensures IndentIsBlank(Unindented(docs)[k])
    ensures forall l :: l in Lines(docs[k].doc, LF, CR) && HasText(l) ==>
      forall j :: 0 <= j < Unindented(docs)[k].indent ==> IsBlank(l[j])
  {
    var add := Add(docs);
    var m := FragsMin(docs, add);
    FragsMinBounds(docs, add);
    assert m <= FragMin(docs[k], add);
    AddIsMixed(docs);
  }

  /** Unindented fragments fit: the indentation of each never exceeds a line with text, so `combine_doc_frags` may slice it off. */
  lemma UnindentedFits(docs: seq<Fragment>)
    ensures AllFit(Unindented(docs))
  {
    var u := Unindented(docs);
    forall k | 0 <= k < |u|
      ensures Fits(u[k])
    {
      UnindentBlank(docs, k);
      assert IndentIsBlank(u[k]);
    }
  }

  /**
   * Some fragment is stripped of exactly the blanks one of its lines starts with: the
   * indentation removed is as large as it can be.
   */
  lemma UnindentTight(docs: seq<Fragment>, k: nat, l: Bytes)
    requires k < |docs| && l in Lines(docs[k].doc, LF, CR) && HasText(l) && LeadingBlanks(l) + 1 < UsizeMax
    ensures exists k', l' ::
      (0 <= k' < |docs| && l' in Lines(docs[k'].doc, LF, CR) && HasText(l') && Unindented(docs)[k'].indent == LeadingBlanks(l'))
  {
    var add := Add(docs);
    var m := FragsMin(docs, add);
    FragsMinBelowMax(docs, add, k, l);
    FragsMinBounds(docs, add);
    var k' :| 0 <= k' < |docs| && m == FragMin(docs[k'], add);
    LineAtMin(docs[k'], add);
    var l' :| l' in Lines(docs[k'].doc, LF, CR) && HasText(l') && IndentFor(docs[k'], m, add) == LeadingBlanks(l');
    assert Unindented(docs)[k'].indent == LeadingBlanks(l');
  }

  lemma FragsMinBelowMax(docs: seq<Fragment>, add: nat, k: nat, l: Bytes)
    requires k < |docs| && l in Lines(docs[k].doc, LF, CR) && HasText(l) && LeadingBlanks(l) + add < UsizeMax
    ensures FragsMin(docs, add) < UsizeMax
  {
    FragsMinBounds(docs, add);
    assert FragMin(docs[k], add) < UsizeMax;
  }

  /** A minimum below `usize::MAX` is reached on one of the fragment's lines. */
  lemma LineAtMin(f: Fragment, add: nat)
    requires add <= 1 && FragMin(f, add) < UsizeMax
    ensures exists l :: l in Lines(f.doc, LF, CR) && HasText(l) && IndentFor(f, FragMin(f, add), add) == LeadingBlanks(l)
  {
    var m := FragMin(f, add);
    var l :| l in Lines(f.doc, LF, CR) && HasText(l) && m == LeadingBlanks(l) + KindExtra(f, add);
    assert IndentFor(f, m, add) == LeadingBlanks(l);
  }

  // ----- combining the fragments -----

  /** The combined markdown, the fragment each of its bytes came from, and the fragments. */
  datatype Docs = Docs(value: Bytes, owner: seq<nat>, frags: seq<Fragment>)

  /** The slice `line[indent..]` is within every line with text. */
  predicate LinesFit(indent: nat, lines: seq<Bytes>)
  {
    forall l :: l in lines && HasText(l) ==> indent <= |l|
  }

  predicate Fits(f: Fragment)
  {
    LinesFit(f.indent, Lines(f.doc, LF, CR))
  }

  predicate AllFit(frags: seq<Fragment>)
  {
    forall k {:trigger Fits(frags[k])} :: 0 <= k < |frags| ==> Fits(frags[k])
  }

  /** A line as it enters the combined text: stripped of the indentation when it has text. */
  function LineText(indent: nat, line: Bytes): Bytes
    requires HasText(line) ==> indent <= |line|
  {
    if HasText(line) then line[indent..] else line
  }

  /** Each line and a line feed. */
  function LinesText(indent: nat, lines: seq<Bytes>): Bytes
    requires LinesFit(indent, lines)
  {
    if lines == [] then []
    else
      assert LinesFit(indent, lines[..|lines| - 1]) by {
        assert forall l :: l in lines[..|lines| - 1] ==> l in lines;
      }
      LinesText(indent, lines[..|lines| - 1]) + (LineText(indent, lines[|lines| - 1]) + [LF])
  }

  /** The text a fragment contributes. */
  function FragText(f: Fragment): Bytes
    requires Fits(f)
  {
    LinesText(f.indent, Lines(f.doc, LF, CR))
  }

  /** What each fragment contributes, in order. */
  function FragTexts(frags: seq<Fragment>): (r: seq<Bytes>)
    requires AllFit(frags)
    ensures |r| == |frags| && forall k {:trigger r[k]} :: 0 <= k < |frags| ==> r[k] == FragText(frags[k])
  {
    seq(|frags|, k requires 0 <= k < |frags| => FragText(frags[k]))
  }

  function Repeat(i: nat, n: nat): (r: seq<nat>)
    ensures |r| == n
  {
    seq(n, _ => i)
  }

  lemma RepeatIndex(i: nat, n: nat)
    ensures forall k :: 0 <= k < n ==> Repeat(i, n)[k] == i
  {
  }

  lemma RepeatAppend(i: nat, a: nat, b: nat)
    ensures Repeat(i, a) + Repeat(i, b) == Repeat(i, a + b)
  {
  }

  /** The texts one after the other. */
  function Joined(texts: seq<Bytes>): Bytes
  {
    if texts == [] then [] else Joined(texts[..|texts| - 1]) + texts[|texts| - 1]
  }

  /** The source map of the joined texts: every byte of text `i` maps to `i`. */
  function Owners(texts: seq<Bytes>): (r: seq<nat>)
    ensures |r| == |Joined(texts)|
  {
    if texts == [] then [] else Owners(texts[..|texts| - 1]) + Repeat(|texts| - 1, |texts[|texts| - 1]|)
  }

  function Combined(frags: seq<Fragment>): Docs
    requires AllFit(frags)
  {
    var texts := FragTexts(frags);
    Docs(Joined(texts), Owners(texts), frags)
  }

  /** Appends lines to the combined text and records where each came from. */
  class DocsBuilder {
    var value: Bytes
    var owner: seq<nat>

    constructor ()
      ensures value == [] && owner == []
    {
      value := [];
      owner := [];
    }

    /** Append a line and a line feed, all of them owned by fragment `i`. */
    method Push(i: nat, line: Bytes)
      modifies this
      ensures value == old(value) + (line + [LF])
      ensures owner == old(owner) + Repeat(i, |line| + 1)
    {
      value := value + (line + [LF]);
      owner := owner + Repeat(i, |line| + 1);
    }
  }

  lemma LinesTextStep(indent: nat, lines: seq<Bytes>, j: nat)
    requires LinesFit(indent, lines) && j < |lines|
    ensures LinesFit(indent, lines[..j]) && LinesFit(indent, lines[..j + 1])
    ensures HasText(lines[j]) ==> indent <= |lines[j]|
    ensures LinesText(indent, lines[..j + 1]) == LinesText(indent, lines[..j]) + (LineText(indent, lines[j]) + [LF])
  {
    assert lines[..j + 1][..j] == lines[..j] && lines[..j + 1][j] == lines[j];
    assert forall l :: l in lines[..j + 1] ==> l in lines;
    assert lines[j] in lines;
  }

  /** Push one line of fragment `i`, stripped of the indentation when it has text. */
  method PushLine(builder: DocsBuilder, i: nat, indent: nat, line: Bytes)
    requires HasText(line) ==> indent <= |line|
    modifies builder
    ensures builder.value == old(builder.value) + (LineText(indent, line) + [LF])
    ensures builder.owner == old(builder.owner) + Repeat(i, |LineText(indent, line)| + 1)
  {
    if HasText(line) {
      builder.Push(i, line[indent..]);
    } else {
      builder.Push(i, line);
    }
  }

  /** One more line extends the text and the source map of the lines before it. */
  lemma PushLinesStep(value0: Bytes, owner0: seq<nat>, i: nat, indent: nat, lines: seq<Bytes>, j: nat)
    requires LinesFit(indent, lines) && j < |lines|
    ensures LinesFit(indent, lines[..j + 1])
    ensures HasText(lines[j]) ==> indent <= |lines[j]|
    ensures value0 + LinesText(indent, lines[..j]) + (LineText(indent, lines[j]) + [LF])
      == value0 + LinesText(indent, lines[..j + 1])
    ensures owner0 + Repeat(i, |LinesText(indent, lines[..j])|) + Repeat(i, |LineText(indent, lines[j])| + 1)
      == owner0 + Repeat(i, |LinesText(indent, lines[..j + 1])|)
  {
    LinesTextStep(indent, lines, j);
    var before := LinesText(indent, lines[..j]);
    Assoc(value0, before, LineText(indent, lines[j]) + [LF]);
    var width := |LineText(indent, lines[j])| + 1;
    Assoc(owner0, Repeat(i, |before|), Repeat(i, width));
    RepeatAppend(i, |before|, width);
  }

  /** Push the lines of fragment `i`, stripping the indentation from those with text. */
  method PushLines(builder: DocsBuilder, i: nat, indent: nat, lines: seq<Bytes>)
    requires LinesFit(indent, lines)
    modifies builder
    ensures builder.value == old(builder.value) + LinesText(indent, lines)
    ensures builder.owner == old(builder.owner) + Repeat(i, |LinesText(indent, lines)|)
  {
    ghost var value0, owner0 := builder.value, builder.owner;
    for j := 0 to |lines|
      invariant LinesFit(indent, lines[..j])
      invariant builder.value == value0 + LinesText(indent, lines[..j])
      invariant builder.owner == owner0 + Repeat(i, |LinesText(indent, lines[..j])|)
    {
      PushLinesStep(value0, owner0, i, indent, lines, j);
      PushLine(builder, i, indent, lines[j]);
    }
    assert lines[..|lines|] == lines;
  }

  /** One more fragment's text extends the joined texts and their source map. */
  lemma CombineStep(texts: seq<Bytes>, i: nat)
    requires i < |texts|
    ensures Joined(texts[..i]) + texts[i] == Joined(texts[..i + 1])
    ensures Owners(texts[..i]) + Repeat(i, |texts[i]|) == Owners(texts[..i + 1])
  {
    assert texts[..i + 1][..i] == texts[..i] && texts[..i + 1][i] == texts[i];
  }

  method Combine(frags: seq<Fragment>) returns (docs: Docs)
    requires AllFit(frags)
    ensures docs == Combined(frags)
  {
    ghost var texts := FragTexts(frags);
    var builder := new DocsBuilder();
    for i := 0 to |frags|
      invariant builder.value == Joined(texts[..i])
      invariant builder.owner == Owners(texts[..i])
    {
      var frag := frags[i];
      assert Fits(frag);
      assert texts[i] == LinesText(frag.indent, Lines(frag.doc, LF, CR));
      CombineStep(texts, i);
      PushLines(builder, i, frag.indent, Lines(frag.doc, LF, CR));
    }
    assert texts[..|frags|] == texts;
    docs := Docs(builder.value, builder.owner, frags);
  }

  /** Every byte belongs to a fragment, and the owners never decrease along the text. */
  predicate ValidDocs(d: Docs)
  {
    && |d.owner| == |d.value|
    && (forall k :: 0 <= k < |d.owner| ==> d.owner[k] < |d.frags|)
    && (forall a, b :: 0 <= a <= b < |d.owner| ==> d.owner[a] <= d.owner[b])
  }

  lemma {:induction false} OwnersValid(texts: seq<Bytes>)
    ensures forall k :: 0 <= k < |Owners(texts)| ==> Owners(texts)[k] < |texts|
    ensures forall a, b :: 0 <= a <= b < |Owners(texts)| ==> Owners(texts)[a] <= Owners(texts)[b]
  {
    if texts != [] {
      var init := texts[..|texts| - 1];
      OwnersValid(init);
      var o := Owners(texts);
      var oi := Owners(init);
      assert o == oi + Repeat(|texts| - 1, |texts[|texts| - 1]|);
      assert forall k :: 0 <= k < |oi| ==> o[k] == oi[k];
    }
  }

  lemma CombinedValid(frags: seq<Fragment>)
    requires AllFit(frags)
    ensures ValidDocs(Combined(frags))
  {
    OwnersValid(FragTexts(frags));
  }

  /** `unindent_doc_fragments` then `combine_doc_frags`: any fragments, once unindented, combine into well-formed docs. */
  lemma UnindentThenCombine(docs: seq<Fragment>)
    ensures AllFit(Unindented(docs)) && ValidDocs(Combined(Unindented(docs)))
  {
    UnindentedFits(docs);
    CombinedValid(Unindented(docs));
  }

  /** Text `i` sits right after the texts before it, and the source map sends each of its bytes to `i`. */
  lemma {:induction false} JoinedSegment(texts: seq<Bytes>, i: nat)
    requires i < |texts|
    ensures var start := |Joined(texts[..i])|;
      && start + |texts[i]| <= |Joined(texts)|
      && Joined(texts)[start..start + |texts[i]|] == texts[i]
      && forall k :: start <= k < start + |texts[i]| ==> Owners(texts)[k] == i
  {
    var init := texts[..|texts| - 1];
    var v, vi := Joined(texts), Joined(init);
    var o, oi := Owners(texts), Owners(init);
    var start := |Joined(texts[..i])|;
    var text := texts[i];
    assert v == vi + texts[|texts| - 1];
    assert o == oi + Repeat(|texts| - 1, |texts[|texts| - 1]|);
    if i < |texts| - 1 {
      assert init[..i] == texts[..i] && init[i] == text;
      JoinedSegment(init, i);
      assert v[start..start + |text|] == vi[start..start + |text|];
      assert forall k :: start <= k < start + |text| ==> o[k] == oi[k];
    } else {
      assert texts[..i] == init;
    }
  }

  // ----- replacing the section -----

  /** The combined docs of `source` and the byte range of the section within them. */
  datatype FeatureDocsSection = FeatureDocsSection(source: Bytes, docs: Docs, section: Span)

  /** The attributes lie within the source in order and do not overlap. */
  predicate SpansOrdered(frags: seq<Fragment>, n: nat)
  {
    && (forall k :: 0 <= k < |frags| ==> frags[k].attrSpan.start <= frags[k].attrSpan.end <= n)
    && (forall a, b :: 0 <= a < b < |frags| ==> frags[a].attrSpan.end <= frags[b].attrSpan.start)
  }

  /** What the parse and the section search deliver. */
  predicate SectionValid(s: FeatureDocsSection)
  {
    && ValidDocs(s.docs)
    && SpansOrdered(s.docs.frags, |s.source|)
    && s.section.start <= s.section.end < |s.docs.value|
  }

  const SameAttribute := "section start and end in the same doc attribute is not yet supported"

  /** `//!`, and then a space and the line unless the line is only whitespace. */
  function CommentText(line: Bytes): Bytes
  {
    DocComment + (if AllWhitespaceBytes(line) then [] else [Space] + line)
  }

  function CommentBlock(lines: seq<Bytes>): (r: Bytes)
    ensures r == [] || r[|r| - 1] == LF
  {
    if lines == [] then [] else CommentBlock(lines[..|lines| - 1]) + CommentText(lines[|lines| - 1]) + [LF]
  }

  /** A line feed, then one `//!` line for each line of the new content. */
  function Replacement(content: Bytes): Bytes
  {
    [LF] + CommentBlock(Lines(content, LF, CR))
  }

  method BuildReplacement(content: Bytes) returns (out: Bytes)
    ensures out == Replacement(content)
  {
    out := [LF];
    var lines := Lines(content, LF, CR);
    for i := 0 to |lines|
      invariant out == [LF] + CommentBlock(lines[..i])
    {
      CommentBlockStep(lines, i);
      out := CommentLine(out, lines[i]);
    }
    assert lines[..|lines|] == lines;
  }

  /** One more line extends the block of the lines before it. */
  lemma CommentBlockStep(lines: seq<Bytes>, i: nat)
    requires i < |lines|
    ensures [LF] + CommentBlock(lines[..i]) + CommentText(lines[i]) + [LF] == [LF] + CommentBlock(lines[..i + 1])
  {
    assert lines[..i + 1][..i] == lines[..i] && lines[..i + 1][i] == lines[i];
    assert CommentBlock(lines[..i + 1]) == CommentBlock(lines[..i]) + CommentText(lines[i]) + [LF];
  }

  /** Append the `//!` line for `line`. */
  method CommentLine(out: Bytes, line: Bytes) returns (r: Bytes)
    ensures r == out + CommentText(line) + [LF]
  {
    r := out + DocComment;
    if !AllWhitespaceBytes(line) {
      r := r + [Space];
      r := r + line;
      Assoc(out + DocComment, [Space], line);
    }
    r := r + [LF];
  }

  /** The text after the splice: the source from `b`, without one leading line feed. */
  function AfterLineFeed(rest: Bytes): Bytes
  {
    if rest != [] && rest[0] == LF then rest[1..] else rest
  }

  function StartFrag(s: FeatureDocsSection): nat
    requires SectionValid(s)
  {
    s.docs.owner[s.section.start]
  }

  function EndFrag(s: FeatureDocsSection): nat
    requires SectionValid(s)
  {
    s.docs.owner[s.section.end]
  }

  /**
   * `out` is the source up to the end of the attribute holding the section start, the
   * replacement, and the source from the start of the attribute holding the section end.
   */
  predicate Rewritten(s: FeatureDocsSection, content: Bytes, out: Bytes)
    requires SectionValid(s)
  {
    var a := s.docs.frags[StartFrag(s)].attrSpan.end;
    var b := s.docs.frags[EndFrag(s)].attrSpan.start;
    var rep := Replacement(content);
    && a <= b
    && a + |rep| <= |out|
    && out[..a] == s.source[..a]
    && out[a..a + |rep|] == rep
    && out[a + |rep|..] == AfterLineFeed(s.source[b..])
  }

  method Replace(s: FeatureDocsSection, content: Bytes) returns (r: Result<Bytes>)
    requires SectionValid(s)
    ensures StartFrag(s) == EndFrag(s) ==> r == Err(SameAttribute)
    ensures StartFrag(s) != EndFrag(s) ==> r.Ok? && Rewritten(s, content, r.value)
  {
    var startFragIndex := s.docs.owner[s.section.start];
    var endFragIndex := s.docs.owner[s.section.end];
    var startFrag := s.docs.frags[startFragIndex];
    var endFrag := s.docs.frags[endFragIndex];
    if startFragIndex == endFragIndex {
      return Err(SameAttribute);
    }
    var replacement := BuildReplacement(content);
    var insertStart := startFrag.attrSpan.end;
    var insertEnd := endFrag.attrSpan.start;
    assert insertStart <= insertEnd;
    var out := s.source[..insertStart] + replacement + s.source[insertEnd..];
    var afterInsertion := insertStart + |replacement|;
    assert out[afterInsertion..] == s.source[insertEnd..];
    if afterInsertion < |out| && out[afterInsertion] == LF {
      out := out[..afterInsertion] + out[afterInsertion + 1..];
    }
    return Ok(out);
  }

  /** Each content line as a comment line, as splitting the replacement into lines gives it back. */
  function CommentedLines(lines: seq<Bytes>): (r: seq<Bytes>)
    ensures |r| == |lines|
    ensures forall k :: 0 <= k < |lines| ==> r[k] == DropLast(CommentText(lines[k]), CR)
  {
    if lines == [] then [] else CommentedLines(lines[..|lines| - 1]) + [DropLast(CommentText(lines[|lines| - 1]), CR)]
  }

  /**
   * The comment block splits into one `//!` line per content line (a carriage return left at
   * the end of a content line is lost again when the result is split into lines).
   */
  lemma {:induction false} CommentBlockLines(lines: seq<Bytes>)
    requires forall l :: l in lines ==> LF !in l
    ensures Lines(CommentBlock(lines), LF, CR) == CommentedLines(lines)
  {
    if lines != [] {
      var init := lines[..|lines| - 1];
      var last := lines[|lines| - 1];
      assert forall l :: l in init ==> l in lines;
      CommentBlockLines(init);
      var text := CommentText(last);
      assert LF !in text by {
        assert last in lines;
        assert LF !in DocComment;
      }
      LinesConcat(CommentBlock(init), text + [LF], LF, CR);
      OneLine(text, LF, CR);
      assert CommentBlock(lines) == CommentBlock(init) + (text + [LF]);
    }
  }

  /** The replacement is a line feed and then one `//!` line per content line. */
  lemma ReplacementLines(content: Bytes)
    ensures Replacement(content)[0] == LF
    ensures Lines(Replacement(content)[1..], LF, CR) == CommentedLines(Lines(content, LF, CR))
  {
    LinesHaveNoLineFeed(content, LF, CR);
    CommentBlockLines(Lines(content, LF, CR));
    assert Replacement(content)[1..] == CommentBlock(Lines(content, LF, CR));
  }

  /** Reading a line with text back from its comment: dropping `//! ` gives the line. */
  lemma CommentTextReadBack(line: Bytes)
    requires HasText(line)
    ensures StripPrefix(CommentText(line), DocComment + [Space]) == Some(line)
  {
    StripPrefixConcat(DocComment + [Space], line);
    assert CommentText(line) == DocComment + [Space] + line;
  }
}
