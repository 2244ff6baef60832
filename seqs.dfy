/** Generic sequence helpers shared by the byte-level and the char-level text code. */
module Seqs {
  import opened Wrappers

  /** The concatenation of a list of pieces, like `[String]::concat`. */
  function Concat<T>(parts: seq<seq<T>>): (r: seq<T>)
  {
    if parts == [] then [] else parts[0] + Concat(parts[1..])
  }

  lemma {:induction false} ConcatAppend<T>(parts: seq<seq<T>>, last: seq<T>)
    ensures Concat(parts + [last]) == Concat(parts) + last
  {
    if parts == [] {
      assert parts + [last] == [last];
    } else {
      assert (parts + [last])[1..] == parts[1..] + [last];
      ConcatAppend(parts[1..], last);
    }
  }

  /** A non-empty sequence is its front and its last element. */
  lemma Snoc<T>(s: seq<T>)
    requires s != []
    ensures s == s[..|s| - 1] + [s[|s| - 1]]
  {
  }

  /** Concatenation is associative; stated once so that long chains can be regrouped cheaply. */
  lemma Assoc<T>(a: seq<T>, b: seq<T>, c: seq<T>)
    ensures a + b + c == a + (b + c)
  {
  }

  function Reverse<T>(s: seq<T>): (r: seq<T>)
  {
    if s == [] then [] else Reverse(s[1..]) + [s[0]]
  }

  lemma {:induction false} ReverseAppend<T>(s: seq<T>, x: T)
    ensures Reverse(s + [x]) == [x] + Reverse(s)
  {
    if s == [] {
      assert s + [x] == [x];
    } else {
      assert (s + [x])[1..] == s[1..] + [x];
      ReverseAppend(s[1..], x);
    }
  }

  lemma {:induction false} ReverseSpec<T>(s: seq<T>)
    ensures |Reverse(s)| == |s|
    ensures forall k :: 0 <= k < |s| ==> Reverse(s)[k] == s[|s| - 1 - k]
  {
    if s != [] {
      ReverseSpec(s[1..]);
      assert forall k :: 0 <= k < |s| - 1 ==> Reverse(s)[k] == Reverse(s[1..])[k];
    }
  }

  /** `parts.join(sep)`. */
  function Join<T>(parts: seq<seq<T>>, sep: seq<T>): (r: seq<T>)
  {
    if parts == [] then []
    else if |parts| == 1 then parts[0]
    else parts[0] + sep + Join(parts[1..], sep)
  }

  predicate StartsWith<T(==)>(s: seq<T>, prefix: seq<T>)
  {
    |prefix| <= |s| && s[..|prefix|] == prefix
  }

  lemma StartsWithExtend<T>(s: seq<T>, t: seq<T>, prefix: seq<T>)
    requires StartsWith(s, prefix)
    ensures StartsWith(s + t, prefix)
  {
    assert (s + t)[..|prefix|] == s[..|prefix|];
  }

  predicate EndsWith<T(==)>(s: seq<T>, suffix: seq<T>)
  {
    |suffix| <= |s| && s[|s| - |suffix|..] == suffix
  }

  /** A non-empty concatenation starts with its first piece. */
  lemma ConcatStartsWithFirst<T>(parts: seq<seq<T>>)
    requires |parts| > 0
    ensures StartsWith(Concat(parts), parts[0])
  {
    assert Concat(parts)[..|parts[0]|] == parts[0];
  }

  lemma EndsWithPrepend<T>(front: seq<T>, s: seq<T>, suffix: seq<T>)
    requires EndsWith(s, suffix)
    ensures EndsWith(front + s, suffix)
  {
    assert (front + s)[|front + s| - |suffix|..] == s[|s| - |suffix|..];
  }

  /** Does `pattern` occur in `s` at position `i`? */
  predicate OccursAt<T(==)>(s: seq<T>, pattern: seq<T>, i: nat)
  {
    i + |pattern| <= |s| && s[i..i + |pattern|] == pattern
  }

  /** The first position at or after `from` where `pattern` occurs, like `str::find` on `s[from..]`. */
  function FindFrom<T(==)>(s: seq<T>, pattern: seq<T>, from: nat): (r: Option<nat>)
    decreases |s| - from
  {
    if from + |pattern| > |s| then None
    else if OccursAt(s, pattern, from) then Some(from)
    else FindFrom(s, pattern, from + 1)
  }

  lemma {:induction false} FindFromSpec<T>(s: seq<T>, pattern: seq<T>, from: nat)
    ensures FindFrom(s, pattern, from).Some? ==>
      var i := FindFrom(s, pattern, from).value;
      from <= i && OccursAt(s, pattern, i) && forall j :: from <= j < i ==> !OccursAt(s, pattern, j)
    ensures FindFrom(s, pattern, from).None? ==> forall j :: from <= j ==> !OccursAt(s, pattern, j)
    decreases |s| - from
  {
    if from + |pattern| <= |s| && !OccursAt(s, pattern, from) {
      FindFromSpec(s, pattern, from + 1);
    }
  }

  /** Where `FindFrom` finds `pattern`, it occurs there. */
  lemma FindFromFound<T>(s: seq<T>, pattern: seq<T>, from: nat)
    requires FindFrom(s, pattern, from).Some?
    ensures from <= FindFrom(s, pattern, from).value && OccursAt(s, pattern, FindFrom(s, pattern, from).value)
  {
    FindFromSpec(s, pattern, from);
  }

  /** The first index of element `x` in `s`. */
  function IndexOf<T(==)>(s: seq<T>, x: T): (r: Option<nat>)
    ensures r.Some? ==> r.value < |s| && s[r.value] == x && x !in s[..r.value]
    ensures r.None? ==> x !in s
  {
    if s == [] then None
    else if s[0] == x then Some(0)
    else match IndexOf(s[1..], x)
      case None => None
      case Some(i) => Some(i + 1)
  }

  /** Drop one trailing `x` if there is one. */
  function DropLast<T(==)>(s: seq<T>, x: T): seq<T>
  {
    if |s| > 0 && s[|s| - 1] == x then s[..|s| - 1] else s
  }

  /**
   * `str::lines`: split after every line feed, drop the line feed and then one carriage
   * return before it; a last piece without a line feed keeps any carriage return, and
   * a final line feed does not start an empty line.
   */
  function Lines<T(==)>(s: seq<T>, lf: T, cr: T): (r: seq<seq<T>>)
    decreases |s|
  {
    if s == [] then []
    else match IndexOf(s, lf)
      case None => [s]
      case Some(i) => [DropLast(s[..i], cr)] + Lines(s[i + 1..], lf, cr)
  }

  lemma JoinCons<T>(x: seq<T>, rest: seq<seq<T>>, sep: seq<T>)
    requires rest != []
    ensures Join([x] + rest, sep) == x + sep + Join(rest, sep)
  {
    assert ([x] + rest)[1..] == rest;
  }

  /** Without carriage returns, the first line is everything before the first line feed. */
  lemma {:induction false} LinesCons<T>(s: seq<T>, lf: T, cr: T, i: nat)
    requires cr != lf && cr !in s && IndexOf(s, lf) == Some(i)
    ensures cr !in s[i + 1..]
    ensures Lines(s, lf, cr) == [s[..i]] + Lines(s[i + 1..], lf, cr)
  {
    assert cr !in s[..i];
    assert DropLast(s[..i], cr) == s[..i];
    var tail := s[i + 1..];
    assert forall k :: 0 <= k < |tail| ==> tail[k] == s[i + 1 + k];
  }

  lemma DropLastAppend<T>(a: seq<T>, b: seq<T>, x: T)
    requires b != []
    ensures DropLast(a + b, x) == a + DropLast(b, x)
  {
    assert (a + b)[|a + b| - 1] == b[|b| - 1];
    assert (a + b)[..|a + b| - 1] == a + b[..|b| - 1];
  }

  /** Without carriage returns, joining the lines with line feeds restores the text, up to a final line feed. */
  lemma {:induction false} LinesJoin<T>(s: seq<T>, lf: T, cr: T)
    requires cr != lf && cr !in s
    ensures Join(Lines(s, lf, cr), [lf]) == DropLast(s, lf)
    decreases |s|
  {
    if s != [] {
      match IndexOf(s, lf)
      case None =>
      case Some(i) =>
        var tail := s[i + 1..];
        LinesCons(s, lf, cr, i);
        LinesJoin(tail, lf, cr);
        assert s == s[..i] + [lf] + tail;
        if tail == [] {
          assert Lines(s, lf, cr) == [s[..i]];
        } else {
          var rest := Lines(tail, lf, cr);
          assert rest != [];
          JoinCons(s[..i], rest, [lf]);
          DropLastAppend(s[..i] + [lf], tail, lf);
        }
    }
  }

  /** The first `x` of `a + b` is the first `x` of `a` when `a` has one. */
  lemma IndexOfConcat<T>(a: seq<T>, b: seq<T>, x: T)
    requires x in a
    ensures IndexOf(a + b, x) == IndexOf(a, x)
  {
    var i := IndexOf(a, x).value;
    var j := IndexOf(a + b, x).value;
    assert (a + b)[i] == x;
  }

  /** Text that ends with a line feed splits into lines independently of what follows. */
  lemma {:induction false} LinesConcat<T>(a: seq<T>, b: seq<T>, lf: T, cr: T)
    requires a == [] || a[|a| - 1] == lf
    ensures Lines(a + b, lf, cr) == Lines(a, lf, cr) + Lines(b, lf, cr)
    decreases |a|
  {
    if a == [] {
      assert a + b == b;
    } else {
      assert lf in a by { assert a[|a| - 1] == lf; }
      IndexOfConcat(a, b, lf);
      var i := IndexOf(a, lf).value;
      assert (a + b)[..i] == a[..i];
      assert (a + b)[i + 1..] == a[i + 1..] + b;
      var rest := a[i + 1..];
      assert rest == [] || rest[|rest| - 1] == lf;
      var line := DropLast(a[..i], cr);
      assert Lines(a, lf, cr) == [line] + Lines(rest, lf, cr);
      assert Lines(a + b, lf, cr) == [line] + Lines(rest + b, lf, cr);
      LinesConcat(rest, b, lf, cr);
      Assoc([line], Lines(rest, lf, cr), Lines(b, lf, cr));
    }
  }

  /** A single line feed-terminated line. */
  lemma OneLine<T>(l: seq<T>, lf: T, cr: T)
    requires lf !in l
    ensures Lines(l + [lf], lf, cr) == [DropLast(l, cr)]
  {
    var s := l + [lf];
    assert s[|l|] == lf && s[..|l|] == l;
    assert IndexOf(s, lf) == Some(|l|);
    assert s[|l| + 1..] == [];
  }

  /** No line holds a line feed. */
  lemma {:induction false} LinesHaveNoLineFeed<T>(s: seq<T>, lf: T, cr: T)
    ensures forall l :: l in Lines(s, lf, cr) ==> lf !in l
    decreases |s|
  {
    if s != [] {
      match IndexOf(s, lf)
      case None =>
      case Some(i) =>
        LinesHaveNoLineFeed(s[i + 1..], lf, cr);
        assert lf !in s[..i];
        assert lf !in DropLast(s[..i], cr);
    }
  }

  /** The present values of `m`, last one first: what a reverse scan that keeps the `Some`s collects. */
  function Picked<T>(m: seq<Option<T>>): (r: seq<T>)
    ensures |r| <= |m|
  {
    if m == [] then [] else Picked(m[1..]) + (if m[0].Some? then [m[0].value] else [])
  }

  /** The scan from `i` is the scan from `i + 1` followed by what entry `i` contributes. */
  lemma PickedStep<T>(m: seq<Option<T>>, i: nat)
    requires i < |m|
    ensures m[i].None? ==> Picked(m[i..]) == Picked(m[i + 1..])
    ensures m[i].Some? ==> Picked(m[i..]) == Picked(m[i + 1..]) + [m[i].value]
  {
    assert m[i..][0] == m[i] && m[i..][1..] == m[i + 1..];
    if m[i].None? {
      assert Picked(m[i + 1..]) + [] == Picked(m[i + 1..]);
    }
  }

  /** A scan over the whole sequence is the scan over the part from `i` followed by the part below it. */
  lemma {:induction false} PickedSplit<T>(m: seq<Option<T>>, i: nat)
    requires i <= |m|
    ensures Picked(m) == Picked(m[i..]) + Picked(m[..i])
  {
    if i == 0 {
      assert m[0..] == m && m[..0] == [];
    } else {
      var own := if m[0].Some? then [m[0].value] else [];
      PickedSplit(m[1..], i - 1);
      assert m[1..][i - 1..] == m[i..];
      assert m[..i][0] == m[0] && m[..i][1..] == m[1..][..i - 1];
      assert Picked(m[..i]) == Picked(m[1..][..i - 1]) + own;
      assert Picked(m) == (Picked(m[i..]) + Picked(m[1..][..i - 1])) + own;
    }
  }

  /** Replace every occurrence of `pattern`, left to right and without overlap, like `str::replace`. */
  function ReplaceAll<T(==)>(s: seq<T>, pattern: seq<T>, with: seq<T>): (r: seq<T>)
    requires |pattern| > 0
    ensures (forall i :: 0 <= i < |s| ==> !OccursAt(s, pattern, i)) ==> r == s
    ensures with == pattern ==> r == s
    decreases |s|
  {
    if |s| < |pattern| then s
    else if s[..|pattern|] == pattern then
      assert OccursAt(s, pattern, 0) && s == s[..|pattern|] + s[|pattern|..];
      with + ReplaceAll(s[|pattern|..], pattern, with)
    else
      assert forall i :: 0 <= i < |s| - 1 && OccursAt(s[1..], pattern, i) ==> OccursAt(s, pattern, i + 1);
      [s[0]] + ReplaceAll(s[1..], pattern, with)
  }
}
