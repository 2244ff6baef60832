/**
 * `StringReplacer`: edits a string back to front. It keeps the still untouched
 * prefix of the original and a stack of finished pieces; every replacement must lie
 * inside the untouched prefix, and it cuts that prefix at the replacement's start.
 */
module StringReplacing {
  import opened Wrappers
  import opened Seqs
  import opened Text

  /** One replacement: the bytes `start..end` are replaced by `with`. */
  datatype Edit = Edit(start: nat, end: nat, with: Bytes)

  /** Where the untouched prefix ends after `edits`: the start of the last one. */
  function Cut(len: nat, edits: seq<Edit>): nat
  {
    if edits == [] then len else edits[|edits| - 1].start
  }

  /** Each edit is a range inside the text, and every later edit ends where the previous one starts or before. */
  predicate BackToFront(len: nat, edits: seq<Edit>)
  {
    edits == [] || (edits[0].start <= edits[0].end <= len && BackToFront(edits[0].start, edits[1..]))
  }

  /** The reference meaning of a list of back-to-front edits: the text with each range replaced by its text. */
  function ReplaceRanges(s: Bytes, edits: seq<Edit>): (r: Bytes)
    requires BackToFront(|s|, edits)
    decreases |edits|
  {
    if edits == [] then s
    else ReplaceRanges(s[..edits[0].start], edits[1..]) + edits[0].with + s[edits[0].end..]
  }

  /** The checks `replace` makes before it cuts: an ordered range inside the untouched prefix, on character boundaries. */
  predicate Accepts(rest: Bytes, start: nat, end: nat)
  {
    start <= end <= |rest| && IsCharBoundary(rest, end) && IsCharBoundary(rest, start)
  }

  /** Issuing `edits` one after another from the untouched text `rest` never panics. */
  predicate Fits(rest: Bytes, edits: seq<Edit>)
    decreases |edits|
  {
    edits == [] || (Accepts(rest, edits[0].start, edits[0].end) && Fits(rest[..edits[0].start], edits[1..]))
  }

  lemma {:induction false} CutBound(len: nat, edits: seq<Edit>)
    requires BackToFront(len, edits)
    ensures Cut(len, edits) <= len
    decreases |edits|
  {
    if |edits| > 1 {
      CutBound(edits[0].start, edits[1..]);
      assert Cut(edits[0].start, edits[1..]) == Cut(len, edits);
    }
  }

  /** A fitting list of edits is back to front. */
  lemma {:induction false} FitsBackToFront(s: Bytes, edits: seq<Edit>)
    requires Fits(s, edits)
    ensures BackToFront(|s|, edits)
    decreases |edits|
  {
    if edits != [] {
      FitsBackToFront(s[..edits[0].start], edits[1..]);
    }
  }

  /** Appending one more edit: it must fit the untouched prefix left by the others. */
  lemma {:induction false} FitsAppend(s: Bytes, edits: seq<Edit>, e: Edit)
    requires BackToFront(|s|, edits)
    ensures Cut(|s|, edits) <= |s|
    ensures Fits(s, edits + [e]) <==> Fits(s, edits) && Accepts(s[..Cut(|s|, edits)], e.start, e.end)
    decreases |edits|
  {
    CutBound(|s|, edits);
    if edits == [] {
      assert [e][1..] == [];
    } else {
      var s' := s[..edits[0].start];
      assert (edits + [e])[1..] == edits[1..] + [e];
      FitsAppend(s', edits[1..], e);
      if edits[1..] == [] {
        assert Cut(|s'|, edits[1..]) == edits[0].start == Cut(|s|, edits);
      } else {
        assert Cut(|s'|, edits[1..]) == Cut(|s|, edits);
      }
    }
  }

  /** Once a prefix of the edits panics, so does the whole list. */
  lemma {:induction false} FitsPrefix(s: Bytes, a: seq<Edit>, b: seq<Edit>)
    requires Fits(s, a + b)
    ensures Fits(s, a)
    decreases |a|
  {
    if a != [] {
      assert (a + b)[1..] == a[1..] + b;
      FitsPrefix(s[..a[0].start], a[1..], b);
    }
  }

  /** The untouched prefix left after issuing `edits` from the untouched text `rest`. */
  function Untouched(rest: Bytes, edits: seq<Edit>): (r: Bytes)
    requires Fits(rest, edits)
    ensures |r| <= |rest| && r == rest[..|r|]
    decreases |edits|
  {
    if edits == [] then rest else Untouched(rest[..edits[0].start], edits[1..])
  }

  /** Issuing `a` and then `b` is issuing `a + b`: it fits exactly when `b` fits what `a` leaves untouched. */
  lemma {:induction false} FitsThen(rest: Bytes, a: seq<Edit>, b: seq<Edit>)
    ensures Fits(rest, a + b) <==> Fits(rest, a) && Fits(Untouched(rest, a), b)
    ensures Fits(rest, a + b) ==> Untouched(rest, a + b) == Untouched(Untouched(rest, a), b)
    decreases |a|
  {
    if a == [] {
      assert a + b == b;
    } else {
      assert (a + b)[0] == a[0] && (a + b)[1..] == a[1..] + b;
      if Accepts(rest, a[0].start, a[0].end) {
        FitsThen(rest[..a[0].start], a[1..], b);
      }
    }
  }

  /** From the original text, the untouched prefix is the text up to the last edit's start. */
  lemma {:induction false} UntouchedOriginal(s: Bytes, edits: seq<Edit>)
    requires Fits(s, edits)
    ensures Cut(|s|, edits) <= |s| && Untouched(s, edits) == s[..Cut(|s|, edits)]
    decreases |edits|
  {
    if edits != [] {
      var s' := s[..edits[0].start];
      UntouchedOriginal(s', edits[1..]);
      if edits[1..] != [] {
        assert Cut(|s'|, edits[1..]) == Cut(|s|, edits);
      }
    }
  }

  /** What a replacer makes of `s` after `edits` and `finish`: `None` when some edit panics. */
  function Applied(s: Bytes, edits: seq<Edit>): (r: Option<Bytes>)
    ensures r.Some? <==> Fits(s, edits)
    ensures r.Some? ==> BackToFront(|s|, edits) && r.value == ReplaceRanges(s, edits)
  {
    if Fits(s, edits) then FitsBackToFront(s, edits); Some(ReplaceRanges(s, edits)) else None
  }

  /**
   * Appending one more edit inside the untouched prefix replaces its range there and
   * keeps everything after the prefix, which the earlier edits produced.
   */
  lemma {:induction false} ReplaceRangesAppend(s: Bytes, edits: seq<Edit>, e: Edit)
    requires BackToFront(|s|, edits) && e.start <= e.end <= Cut(|s|, edits)
    ensures Cut(|s|, edits) <= |s| && BackToFront(|s|, edits + [e])
    ensures Cut(|s|, edits) <= |ReplaceRanges(s, edits)|
    ensures ReplaceRanges(s, edits)[..Cut(|s|, edits)] == s[..Cut(|s|, edits)]
    ensures ReplaceRanges(s, edits + [e])
         == s[..e.start] + e.with + s[e.end..Cut(|s|, edits)] + ReplaceRanges(s, edits)[Cut(|s|, edits)..]
    decreases |edits|
  {
    CutBound(|s|, edits);
    if edits == [] {
      assert [e][1..] == [];
    } else {
      var e1 := edits[0];
      var s' := s[..e1.start];
      var c := Cut(|s|, edits);
      assert (edits + [e])[0] == e1 && (edits + [e])[1..] == edits[1..] + [e];
      assert Cut(|s'|, edits[1..]) == c;
      ReplaceRangesAppend(s', edits[1..], e);
      var t' := ReplaceRanges(s', edits[1..]);
      var tail := e1.with + s[e1.end..];
      assert ReplaceRanges(s, edits) == t' + tail;
      SplitAt(t', tail, c);
      PrefixParts(s, e1.start, e.start, e.end, c);
      var head := s[..e.start] + e.with + s[e.end..c];
      var r1 := ReplaceRanges(s', edits[1..] + [e]);
      assert r1 == head + t'[c..];
      assert ReplaceRanges(s, edits + [e]) == r1 + e1.with + s[e1.end..];
      Assoc3(r1, e1.with, s[e1.end..]);
      Assoc3(head, t'[c..], tail);
    }
  }

  lemma SplitAt(a: Bytes, b: Bytes, c: nat)
    requires c <= |a|
    ensures (a + b)[..c] == a[..c] && (a + b)[c..] == a[c..] + b
  {
  }

  lemma PrefixParts(s: Bytes, p: nat, i: nat, j: nat, c: nat)
    requires i <= j <= c <= p <= |s|
    ensures s[..p][..i] == s[..i] && s[..p][j..c] == s[j..c] && s[..p][..c] == s[..c]
  {
  }

  lemma Assoc3(a: Bytes, b: Bytes, c: Bytes)
    ensures (a + b) + c == a + (b + c)
  {
  }

  /** Replacing ranges changes the length by what the replacements add and remove. */
  function Growth(edits: seq<Edit>): int
  {
    if edits == [] then 0 else |edits[0].with| - (edits[0].end - edits[0].start) + Growth(edits[1..])
  }

  lemma {:induction false} ReplaceRangesLength(s: Bytes, edits: seq<Edit>)
    requires BackToFront(|s|, edits)
    ensures |ReplaceRanges(s, edits)| == |s| + Growth(edits)
    decreases |edits|
  {
    if edits != [] {
      ReplaceRangesLength(s[..edits[0].start], edits[1..]);
    }
  }

  lemma {:induction false} ConcatReverseAppend(chunks: seq<Bytes>, x: Bytes)
    ensures Concat(Reverse(chunks + [x])) == x + Concat(Reverse(chunks))
  {
    ReverseAppend(chunks, x);
    assert ([x] + Reverse(chunks))[1..] == Reverse(chunks);
  }

  /** One `replace` step keeps the replacer's invariant. */
  lemma ReplaceStep(s: Bytes, edits: seq<Edit>, chunks: seq<Bytes>, e: Edit, chunks': seq<Bytes>)
    requires BackToFront(|s|, edits) && e.start <= e.end <= Cut(|s|, edits) <= |s|
    requires s[..Cut(|s|, edits)] + Concat(Reverse(chunks)) == ReplaceRanges(s, edits)
    requires var tail := s[e.end..Cut(|s|, edits)];
      chunks' == chunks + (if tail != [] then [tail] else []) + (if e.with != [] then [e.with] else [])
    ensures BackToFront(|s|, edits + [e]) && Cut(|s|, edits + [e]) == e.start
    ensures s[..e.start] + Concat(Reverse(chunks')) == ReplaceRanges(s, edits + [e])
  {
    var c := Cut(|s|, edits);
    ReplaceRangesAppend(s, edits, e);
    var t := ReplaceRanges(s, edits);
    var rc := Concat(Reverse(chunks));
    assert t[c..] == rc by {
      assert t == s[..c] + rc;
      assert |s[..c]| == c;
    }
    var tail := s[e.end..c];
    var mid := chunks + (if tail != [] then [tail] else []);
    assert Concat(Reverse(mid)) == tail + rc by {
      if tail != [] {
        ConcatReverseAppend(chunks, tail);
      } else {
        assert mid == chunks;
      }
    }
    assert Concat(Reverse(chunks')) == e.with + (tail + rc) by {
      if e.with != [] {
        ConcatReverseAppend(mid, e.with);
      } else {
        assert chunks' == mid;
      }
    }
    var r := ReplaceRanges(s, edits + [e]);
    assert r == s[..e.start] + e.with + s[e.end..c] + t[c..];
    Assoc4(s[..e.start], e.with, tail, rc);
  }

  lemma Assoc4(a: Bytes, b: Bytes, c: Bytes, d: Bytes)
    ensures a + (b + (c + d)) == a + b + c + d
  {
  }

  class StringReplacer {
    /** The text the replacer was created with. */
    ghost const original: Bytes
    /** The replacements made so far, in the order they were made. */
    ghost var edits: seq<Edit>
    /** The untouched prefix (the `string` field). */
    var rest: Bytes
    /** Finished pieces, last piece of the output first (the `chunks` field). */
    var chunks: seq<Bytes>

    ghost predicate Valid()
      reads this
    {
      && BackToFront(|original|, edits)
      && Cut(|original|, edits) <= |original|
      && rest == original[..Cut(|original|, edits)]
      && (forall i :: 0 <= i < |chunks| ==> chunks[i] != [])
      && rest + Concat(Reverse(chunks)) == ReplaceRanges(original, edits)
    }

    constructor(s: Bytes)
      ensures Valid() && original == s && edits == [] && rest == s && chunks == []
    {
      original := s;
      edits := [];
      rest := s;
      chunks := [];
    }

    /** `replace`: panics (here: `ok` is false and nothing changes) unless the range fits the untouched prefix. */
    method Replace(start: nat, end: nat, with: Bytes) returns (ok: bool)
      requires Valid()
      modifies this
      ensures Valid()
      ensures ok == Accepts(old(rest), start, end)
      ensures old(rest) == original[..Cut(|original|, old(edits))]
      ensures ok ==> edits == old(edits) + [Edit(start, end, with)] && rest == old(rest)[..start]
      ensures !ok ==> edits == old(edits) && rest == old(rest) && chunks == old(chunks)
    {
      ok := Accepts(rest, start, end);
      if !ok {
        return;
      }
      var tailPiece := rest[end..];
      var newChunks := chunks;
      if tailPiece != [] {
        newChunks := newChunks + [tailPiece];
      }
      if with != [] {
        newChunks := newChunks + [with];
      }
      ReplaceStep(original, edits, chunks, Edit(start, end, with), newChunks);
      chunks := newChunks;
      rest := rest[..start];
      edits := edits + [Edit(start, end, with)];
    }

    /** `insert`: an empty range. */
    method Insert(idx: nat, with: Bytes) returns (ok: bool)
      requires Valid()
      modifies this
      ensures Valid()
      ensures ok == Accepts(old(rest), idx, idx)
      ensures old(rest) == original[..Cut(|original|, old(edits))]
      ensures ok ==> edits == old(edits) + [Edit(idx, idx, with)] && rest == old(rest)[..idx]
      ensures !ok ==> edits == old(edits) && rest == old(rest) && chunks == old(chunks)
    {
      ok := Replace(idx, idx, with);
    }

    /** `remove`: an empty replacement. */
    method Remove(start: nat, end: nat) returns (ok: bool)
      requires Valid()
      modifies this
      ensures Valid()
      ensures ok == Accepts(old(rest), start, end)
      ensures old(rest) == original[..Cut(|original|, old(edits))]
      ensures ok ==> edits == old(edits) + [Edit(start, end, [])] && rest == old(rest)[..start]
      ensures !ok ==> edits == old(edits) && rest == old(rest) && chunks == old(chunks)
    {
      ok := Replace(start, end, []);
    }

    /** `rest`: the untouched prefix of the original. */
    function Rest(): (r: Bytes)
      reads this
      requires Valid()
      ensures r == original[..Cut(|original|, edits)]
    {
      rest
    }

    /** `finish`: the untouched prefix followed by the pieces in reverse order of pushing. */
    method Finish() returns (out: Bytes)
      requires Valid()
      ensures out == ReplaceRanges(original, edits)
      ensures |out| == |original| + Growth(edits)
      ensures edits == [] ==> out == original
    {
      out := rest;
      var i := |chunks|;
      while i > 0
        invariant 0 <= i <= |chunks|
        invariant out == rest + Concat(Reverse(chunks[i..]))
      {
        assert chunks[i - 1..] == [chunks[i - 1]] + chunks[i..];
        ConcatAppend(Reverse(chunks[i..]), chunks[i - 1]);
        out := out + chunks[i - 1];
        i := i - 1;
      }
      assert chunks[0..] == chunks;
      ReplaceRangesLength(original, edits);
    }
  }

  /** A reversed range, a range past the end and an overlap with an earlier edit all panic. */
  lemma RejectedRanges()
    ensures !Fits(Str("foo"), [Edit(1, 0, [])])
    ensures !Fits(Str("foo"), [Edit(3, 10, [])])
    ensures !Fits(Str("foobarbaz"), [Edit(6, 9, []), Edit(5, 7, [])])
  {
  }
}
