/**
 * The feature list of a crate: the `##` and `#!` comments above the keys of the manifest's
 * `[features]` table, collected into entries and rendered as a markdown list.
 *
 * The manifest is taken as already read by a TOML parser: the keys of the `features` table in
 * document order, each with the text of the comments in front of it, and the `default` array.
 */
module FeatureDocs {
  import opened Wrappers
  import opened Seqs
  import opened Text

  /** One key of the `features` table, with the raw text in front of it (its prefix decor). */
  datatype Key = Key(name: string, prefix: string)

  /** What the manifest holds under `features`. `defaults` is the `default` array when it is one. */
  datatype Features =
    | Absent
    | NotTable
    | Table(keys: seq<Key>, defaults: Option<seq<Option<string>>>)

  datatype Entry =
    | InBetween(docs: string)
    | Feature(name: string, docs: string, isDefault: bool)

  const NoSpace := "a non-empty feature docs comment line must start with a space"

  // ----- comment lines -----

  /**
   * The text of one comment line after its `##` or `#!`: a blank line becomes empty, any other
   * line must start with a space, which is dropped, and trailing whitespace goes.
   */
  function CommentLineUnprefixed(line: string): (r: Result<string>)
    ensures AllWhitespace(line) ==> r == Ok("")
    ensures r.Err? <==> !AllWhitespace(line) && line[0] != ' '
    ensures r.Err? ==> r.error == NoSpace
    ensures r.Ok? && !AllWhitespace(line) ==>
      var t := r.value;
      t != [] && !IsWhitespace(t[|t| - 1]) && StartsWith(line, " " + t) && AllWhitespace(line[1 + |t|..])
  {
    if !AllWhitespace(line) then
      match StripPrefix(line, " ")
      case None => Err(NoSpace)
      case Some(rest) =>
        var t := TrimEnd(rest);
        assert t != [];
        assert line == " " + rest;
        assert StartsWith(line, " " + t) by { assert line[..1 + |t|] == " " + rest[..|t|]; }
        assert line[1 + |t|..] == rest[|t|..];
        Ok(t)
    else
      var t := TrimEnd(line);
      assert t == [];
      Ok(t)
  }

  /** Text without trailing whitespace, behind one space and before any whitespace, reads back as itself. */
  lemma CommentRoundTrip(t: string, tail: string)
    requires t != [] && !IsWhitespace(t[|t| - 1]) && AllWhitespace(tail)
    ensures CommentLineUnprefixed(" " + t + tail) == Ok(t)
  {
    var line := " " + t + tail;
    assert !IsWhitespace(line[|t|]);
    assert line[0] == ' ';
    var r := CommentLineUnprefixed(line).value;
    assert StartsWith(line, " " + r) && AllWhitespace(line[1 + |r|..]);
    assert r == line[1..1 + |r|] == t;
  }

  /** The comment of a line with the given marker, or `None` when the line does not start with it. */
  function CommentLine(line: string, marker: string): (r: Result<Option<string>>)
    ensures !StartsWith(line, marker) ==> r == Ok(None)
    ensures StartsWith(line, marker) ==> (r.Ok? <==> CommentLineUnprefixed(line[|marker|..]).Ok?)
    ensures StartsWith(line, marker) && r.Ok? ==> r.value == Some(CommentLineUnprefixed(line[|marker|..]).value)
    ensures r.Err? ==> r.error == NoSpace
  {
    match StripPrefix(line, marker)
    case None => Ok(None)
    case Some(rest) =>
      match CommentLineUnprefixed(rest)
      case Ok(c) => Ok(Some(c))
      case Err(e) => Err(e)
  }

  // ----- parse -----

  /** Is `name` one of the strings of the `default` array? Entries that are not strings do not count. */
  predicate IsDefault(defaults: Option<seq<Option<string>>>, name: string)
  {
    defaults.Some? && Some(name) in defaults.value
  }

  /** A comment, closed by a line feed; nothing for a line without one. */
  function Pushed(comment: Option<string>): string
  {
    if comment.Some? then comment.value + "\n" else ""
  }

  /** The in-between and the feature docs collected so far, after one more line. */
  function LineDocs(acc: (string, string), line: string): Result<(string, string)>
  {
    match CommentLine(line, "#!")
    case Err(e) => Err(e)
    case Ok(between) =>
      match CommentLine(line, "##")
      case Err(e) => Err(e)
      case Ok(feature) => Ok((acc.0 + Pushed(between), acc.1 + Pushed(feature)))
  }

  /** Both kinds of docs of the lines in front of one key; the first bad comment line is the error. */
  function KeyDocs(lines: seq<string>): Result<(string, string)>
    decreases |lines|
  {
    if lines == [] then Ok(("", ""))
    else
      match KeyDocs(lines[..|lines| - 1])
      case Err(e) => Err(e)
      case Ok(acc) => LineDocs(acc, lines[|lines| - 1])
  }

  /** What one key contributes: nothing for `default`, else its in-between block, if any, and the feature. */
  function KeyEntries(key: Key, defaults: Option<seq<Option<string>>>): Result<seq<Entry>>
  {
    if key.name == "default" then Ok([])
    else
      match KeyDocs(Lines(key.prefix, '\n', '\r'))
      case Err(e) => Err(e)
      case Ok(docs) =>
        Ok((if docs.0 == "" then [] else [InBetween(docs.0)])
          + [Feature(key.name, docs.1, IsDefault(defaults, key.name))])
  }

  function ParseKeys(keys: seq<Key>, defaults: Option<seq<Option<string>>>): Result<seq<Entry>>
    decreases |keys|
  {
    if keys == [] then Ok([])
    else
      match ParseKeys(keys[..|keys| - 1], defaults)
      case Err(e) => Err(e)
      case Ok(es) =>
        match KeyEntries(keys[|keys| - 1], defaults)
        case Err(e) => Err(e)
        case Ok(more) => Ok(es + more)
  }

  /** The entries of the whole table, in key order. */
  function Parsed(features: Features): Result<seq<Entry>>
  {
    match features
    case Table(keys, defaults) => ParseKeys(keys, defaults)
    case _ => Ok([])
  }

  lemma {:induction false} KeyDocsErrSticks(lines: seq<string>, i: nat)
    requires i <= |lines| && KeyDocs(lines[..i]).Err?
    ensures KeyDocs(lines) == KeyDocs(lines[..i])
    decreases |lines| - i
  {
    if i < |lines| {
      var front := lines[..|lines| - 1];
      assert front[..i] == lines[..i];
      KeyDocsErrSticks(front, i);
      assert lines[..|lines|] == lines;
    } else {
      assert lines[..i] == lines;
    }
  }

  lemma {:induction false} ParseKeysErrSticks(keys: seq<Key>, defaults: Option<seq<Option<string>>>, i: nat)
    requires i <= |keys| && ParseKeys(keys[..i], defaults).Err?
    ensures ParseKeys(keys, defaults) == ParseKeys(keys[..i], defaults)
    decreases |keys| - i
  {
    if i < |keys| {
      var front := keys[..|keys| - 1];
      assert front[..i] == keys[..i];
      ParseKeysErrSticks(front, defaults, i);
    } else {
      assert keys[..i] == keys;
    }
  }

  /** `KeyDocs` as the loop over the lines in front of a key computes it. */
  method CollectDocs(lines: seq<string>) returns (r: Result<(string, string)>)
    ensures r == KeyDocs(lines)
  {
    var between := "";
    var feature := "";
    for i := 0 to |lines|
      invariant KeyDocs(lines[..i]) == Ok((between, feature))
    {
      assert lines[..i + 1][..i] == lines[..i];
      var line := lines[i];
      ghost var acc := (between, feature);
      assert KeyDocs(lines[..i + 1]) == LineDocs(acc, line);
      var b := CommentLine(line, "#!");
      if b.Err? {
        r := Err(b.error);
        KeyDocsErrSticks(lines, i + 1);
        return;
      }
      if b.value.Some? {
        StringAssoc(between, b.value.value, "\n");
        between := between + b.value.value + "\n";
      }
      assert between == acc.0 + Pushed(b.value);
      var f := CommentLine(line, "##");
      if f.Err? {
        r := Err(f.error);
        KeyDocsErrSticks(lines, i + 1);
        return;
      }
      if f.value.Some? {
        StringAssoc(feature, f.value.value, "\n");
        feature := feature + f.value.value + "\n";
      }
      assert feature == acc.1 + Pushed(f.value);
    }
    assert lines[..|lines|] == lines;
    r := Ok((between, feature));
  }

  /** Read the feature entries of a manifest, in key order. */
  method Parse(features: Features) returns (r: Result<seq<Entry>>)
    ensures r == Parsed(features)
    ensures !features.Table? ==> r == Ok([])
  {
    if !features.Table? {
      return Ok([]);
    }
    var keys := features.keys;
    var defaults := features.defaults;
    var entries := [];
    for i := 0 to |keys|
      invariant ParseKeys(keys[..i], defaults) == Ok(entries)
    {
      assert keys[..i + 1][..i] == keys[..i];
      var key := keys[i];
      var more := ParseKey(key, defaults);
      if more.Err? {
        r := Err(more.error);
        ParseKeysErrSticks(keys, defaults, i + 1);
        return;
      }
      entries := entries + more.value;
    }
    assert keys[..|keys|] == keys;
    r := Ok(entries);
  }

  /** The entries of one key: none for `default`, else its doc comments split in two. */
  method ParseKey(key: Key, defaults: Option<seq<Option<string>>>) returns (r: Result<seq<Entry>>)
    ensures r == KeyEntries(key, defaults)
  {
    if key.name == "default" {
      return Ok([]);
    }
    var lines := Lines(key.prefix, '\n', '\r');
    var docs := CollectDocs(lines);
    match docs
    case Err(e) =>
      r := Err(e);
    case Ok((between, feature)) =>
      var entries := if between == "" then [] else [InBetween(between)];
      r := Ok(entries + [Feature(key.name, feature, IsDefault(defaults, key.name))]);
  }

  // ----- what parsing promises -----

  /** The comment of one line with the given marker, as a list of none or one. */
  function Found(line: string, marker: string): (r: seq<string>)
    ensures |r| <= 1
  {
    match CommentLine(line, marker) case Ok(Some(c)) => [c] case _ => []
  }

  /** The comments with the given marker, in line order. */
  function Comments(lines: seq<string>, marker: string): seq<string>
    decreases |lines|
  {
    if lines == [] then [] else Comments(lines[..|lines| - 1], marker) + Found(lines[|lines| - 1], marker)
  }

  /** Comments, each closed by a line feed. */
  function Block(cs: seq<string>): (r: string)
    ensures r == [] <==> cs == []
    decreases |cs|
  {
    if cs == [] then [] else Block(cs[..|cs| - 1]) + cs[|cs| - 1] + "\n"
  }

  lemma BlockAppend(a: seq<string>, b: seq<string>)
    requires |b| <= 1
    ensures Block(a + b) == Block(a) + Block(b)
  {
    if b == [] {
      assert a + b == a;
    } else {
      assert (a + b)[..|a + b| - 1] == a;
      assert b[..0] == [];
    }
  }

  lemma PushedFound(line: string, marker: string)
    requires CommentLine(line, marker).Ok?
    ensures Pushed(CommentLine(line, marker).value) == Block(Found(line, marker))
  {
    match CommentLine(line, marker)
    case Ok(Some(c)) => assert [c][..0] == [];
    case Ok(None) =>
  }

  /** One line adds its `#!` comment to the in-between docs and its `##` comment to the feature docs. */
  lemma LineDocsFound(acc: (string, string), line: string)
    requires LineDocs(acc, line).Ok?
    ensures LineDocs(acc, line).value == (acc.0 + Block(Found(line, "#!")), acc.1 + Block(Found(line, "##")))
  {
    PushedFound(line, "#!");
    PushedFound(line, "##");
  }

  /** The collected docs are exactly the `#!` comments and the `##` comments, each as a line. */
  lemma {:induction false} KeyDocsAreComments(lines: seq<string>)
    requires KeyDocs(lines).Ok?
    ensures KeyDocs(lines).value == (Block(Comments(lines, "#!")), Block(Comments(lines, "##")))
    decreases |lines|
  {
    if lines != [] {
      var front := lines[..|lines| - 1];
      var line := lines[|lines| - 1];
      KeyDocsAreComments(front);
      var acc := KeyDocs(front).value;
      assert KeyDocs(lines) == LineDocs(acc, line);
      LineDocsFound(acc, line);
      BlockAppend(Comments(front, "#!"), Found(line, "#!"));
      BlockAppend(Comments(front, "##"), Found(line, "##"));
    }
  }

  /** Text that stays one line once it is closed by a line feed: no line feed, no carriage return at its end. */
  predicate OneLineText(c: string)
  {
    '\n' !in c && (c == [] || c[|c| - 1] != '\r')
  }

  /** The comment text of a piece of one line is itself one line, without trailing whitespace. */
  lemma UnprefixedIsOneLine(body: string)
    requires '\n' !in body && CommentLineUnprefixed(body).Ok?
    ensures var c := CommentLineUnprefixed(body).value;
      OneLineText(c) && (c == [] || !IsWhitespace(c[|c| - 1]))
  {
    var c := CommentLineUnprefixed(body).value;
    if c != [] {
      assert c == body[1..1 + |c|];
      assert IsWhitespace('\r');
    }
  }

  /** A comment holds no line feed and does not end in whitespace ('\r' included). */
  lemma FoundIsOneLine(line: string, marker: string)
    requires '\n' !in line
    ensures forall c :: c in Found(line, marker) ==> OneLineText(c) && (c == [] || !IsWhitespace(c[|c| - 1]))
  {
    if StartsWith(line, marker) {
      var body := line[|marker|..];
      assert '\n' !in body;
      if CommentLineUnprefixed(body).Ok? {
        UnprefixedIsOneLine(body);
        assert Found(line, marker) == [CommentLineUnprefixed(body).value];
      } else {
        assert Found(line, marker) == [];
      }
    } else {
      assert Found(line, marker) == [];
    }
  }

  /** The comments of lines without line feeds are single lines without trailing whitespace. */
  lemma {:induction false} CommentsAreOneLine(lines: seq<string>, marker: string)
    requires forall l :: l in lines ==> '\n' !in l
    ensures forall c :: c in Comments(lines, marker) ==> OneLineText(c) && (c == [] || !IsWhitespace(c[|c| - 1]))
    decreases |lines|
  {
    if lines != [] {
      var front := lines[..|lines| - 1];
      var line := lines[|lines| - 1];
      assert Comments(lines, marker) == Comments(front, marker) + Found(line, marker);
      assert '\n' !in line by { assert line in lines; }
      FoundIsOneLine(line, marker);
      assert forall l :: l in front ==> l in lines;
      CommentsAreOneLine(front, marker);
    }
  }

  /** Splitting a block into lines gives back its comments. */
  lemma {:induction false} BlockLines(cs: seq<string>)
    requires forall c :: c in cs ==> OneLineText(c)
    ensures Lines(Block(cs), '\n', '\r') == cs
    decreases |cs|
  {
    if cs != [] {
      var front := cs[..|cs| - 1];
      var c := cs[|cs| - 1];
      var b := Block(front);
      assert Lines(b, '\n', '\r') == front by {
        assert forall x :: x in front ==> x in cs;
        BlockLines(front);
      }
      assert Lines(c + "\n", '\n', '\r') == [c] by {
        assert c in cs;
        OneLine(c, '\n', '\r');
      }
      assert Lines(Block(cs), '\n', '\r') == Lines(b, '\n', '\r') + Lines(c + "\n", '\n', '\r') by {
        assert b == [] || b[|b| - 1] == '\n';
        assert Block(cs) == b + (c + "\n");
        LinesConcat(b, c + "\n", '\n', '\r');
      }
      Snoc(cs);
    }
  }

  /** The feature names of a list of entries, in order. */
  function FeatureNames(es: seq<Entry>): seq<string>
    decreases |es|
  {
    if es == [] then []
    else FeatureNames(es[..|es| - 1]) + (if es[|es| - 1].Feature? then [es[|es| - 1].name] else [])
  }

  lemma {:induction false} FeatureNamesAppend(a: seq<Entry>, b: seq<Entry>)
    ensures FeatureNames(a + b) == FeatureNames(a) + FeatureNames(b)
    decreases |b|
  {
    if b == [] {
      assert a + b == a;
    } else {
      assert (a + b)[..|a + b| - 1] == a + b[..|b| - 1];
      FeatureNamesAppend(a, b[..|b| - 1]);
    }
  }

  /** The names of the keys other than `default`, in order. */
  function FeatureKeys(keys: seq<Key>): seq<string>
    decreases |keys|
  {
    if keys == [] then []
    else
      var k := keys[|keys| - 1];
      FeatureKeys(keys[..|keys| - 1]) + (if k.name == "default" then [] else [k.name])
  }

  /** The entries one key contributes: its in-between block, when it has one, then its feature. */
  lemma KeyEntriesShape(key: Key, defaults: Option<seq<Option<string>>>)
    requires KeyEntries(key, defaults).Ok? && key.name != "default"
    ensures var es := KeyEntries(key, defaults).value;
      var lines := Lines(key.prefix, '\n', '\r');
      var between := Comments(lines, "#!");
      es[|es| - 1] == Feature(key.name, Block(Comments(lines, "##")), IsDefault(defaults, key.name)) &&
      (between == [] ==> |es| == 1) &&
      (between != [] ==> |es| == 2 && es[0] == InBetween(Block(between)))
  {
    KeyDocsAreComments(Lines(key.prefix, '\n', '\r'));
  }

  /** Every feature is a real one, flagged exactly when the `default` array names it. */
  predicate Flagged(es: seq<Entry>, defaults: Option<seq<Option<string>>>)
  {
    forall i :: 0 <= i < |es| && es[i].Feature? ==>
      es[i].name != "default" && (es[i].isDefault <==> IsDefault(defaults, es[i].name))
  }

  /** Every in-between block is non-empty and directly followed by a feature. */
  predicate Attached(es: seq<Entry>)
  {
    forall i :: 0 <= i < |es| && es[i].InBetween? ==> es[i].docs != "" && i + 1 < |es| && es[i + 1].Feature?
  }

  lemma KeyEntriesForm(key: Key, defaults: Option<seq<Option<string>>>)
    requires KeyEntries(key, defaults).Ok?
    ensures var more := KeyEntries(key, defaults).value;
      Flagged(more, defaults) && Attached(more) &&
      FeatureNames(more) == (if key.name == "default" then [] else [key.name])
  {
    var more := KeyEntries(key, defaults).value;
    if key.name != "default" {
      var docs := KeyDocs(Lines(key.prefix, '\n', '\r')).value;
      var f := Feature(key.name, docs.1, IsDefault(defaults, key.name));
      if docs.0 == "" {
        assert more == [f];
        assert more[..0] == [];
      } else {
        var b := InBetween(docs.0);
        assert more == [b, f];
        assert more[..1] == [b] && [b][..0] == [];
        assert FeatureNames([b]) == FeatureNames([]) + [];
        assert FeatureNames(more) == FeatureNames([b]) + [key.name];
      }
    }
  }

  lemma AppendKeeps(a: seq<Entry>, b: seq<Entry>, defaults: Option<seq<Option<string>>>)
    requires Flagged(a, defaults) && Attached(a) && Flagged(b, defaults) && Attached(b)
    ensures Flagged(a + b, defaults) && Attached(a + b)
  {
    assert forall i :: |a| <= i < |a + b| ==> (a + b)[i] == b[i - |a|];
  }

  /**
   * A parsed table: one feature per key other than `default`, in key order, flagged when the
   * `default` array names it; every in-between block is non-empty and immediately followed by
   * the feature it was written above.
   */
  lemma {:induction false} ParsedEntries(keys: seq<Key>, defaults: Option<seq<Option<string>>>)
    requires ParseKeys(keys, defaults).Ok?
    ensures var es := ParseKeys(keys, defaults).value;
      FeatureNames(es) == FeatureKeys(keys) && Flagged(es, defaults) && Attached(es)
    decreases |keys|
  {
    if keys != [] {
      var front := keys[..|keys| - 1];
      var key := keys[|keys| - 1];
      ParsedEntries(front, defaults);
      var es := ParseKeys(front, defaults).value;
      var more := KeyEntries(key, defaults).value;
      assert ParseKeys(keys, defaults).value == es + more;
      FeatureNamesAppend(es, more);
      KeyEntriesForm(key, defaults);
      AppendKeeps(es, more, defaults);
    }
  }

  // ----- format -----

  /** `feature_label` with every `{feature}` replaced by the name. */
  function Label(template: string, name: string): string
  {
    ReplaceAll(template, "{feature}", name)
  }

  function DefaultMark(isDefault: bool): string
  {
    if isDefault then " *(enabled by default)*" else ""
  }

  /** The first doc line follows an em dash, later ones are indented by two spaces. */
  function Marker(i: nat): string
  {
    if i == 0 then " — " else "  "
  }

  function DocLine(i: nat, line: string): string
  {
    Marker(i) + line + "\n"
  }

  /** The doc lines, each behind its marker and closed by a line feed. */
  function DocLines(lines: seq<string>): (r: string)
    ensures r == [] <==> lines == []
    decreases |lines|
  {
    if lines == [] then [] else DocLines(lines[..|lines| - 1]) + DocLine(|lines| - 1, lines[|lines| - 1])
  }

  /** What a feature's docs add after its template: a bare line feed when there are none. */
  function DocText(docs: string): string
  {
    if docs == "" then "\n" else DocLines(Lines(docs, '\n', '\r'))
  }

  /** What one entry adds to the output `out` gathered so far. */
  function Piece(out: string, e: Entry, template: string): (r: string)
    ensures r != []
  {
    match e
    case InBetween(docs) => (if out == "" then "" else "\n") + docs + "\n"
    case Feature(name, docs, isDefault) =>
      "- " + Label(template, name) + DefaultMark(isDefault) + DocText(docs)
  }

  /** The rendered list of the entries, in order. */
  function Formatted(es: seq<Entry>, template: string): string
    decreases |es|
  {
    if es == [] then ""
    else
      var out := Formatted(es[..|es| - 1], template);
      out + Piece(out, es[|es| - 1], template)
  }

  /** Add the doc lines of a feature to `out`. */
  method PushDocLines(out0: string, lines: seq<string>) returns (out: string)
    ensures out == out0 + DocLines(lines)
  {
    out := out0;
    for i := 0 to |lines|
      invariant out == out0 + DocLines(lines[..i])
    {
      assert lines[..i + 1][..i] == lines[..i];
      out := out + (if i == 0 then " — " else "  ");
      out := out + lines[i];
      out := out + "\n";
    }
    assert lines[..|lines|] == lines;
  }

  lemma StringAssoc(a: string, b: string, c: string)
    ensures a + b + c == a + (b + c)
  {
  }

  /** Add what a feature's docs contribute after its label. */
  method PushDocText(out0: string, docs: string) returns (out: string)
    ensures out == out0 + DocText(docs)
  {
    if docs == "" {
      out := out0 + "\n";
    } else {
      out := PushDocLines(out0, Lines(docs, '\n', '\r'));
    }
  }

  /** Add one feature's list item to `out0`. */
  method PushFeature(out0: string, name: string, docs: string, isDefault: bool, template: string)
    returns (out: string)
    ensures out == out0 + Piece(out0, Feature(name, docs, isDefault), template)
  {
    var item := "- " + Label(template, name) + DefaultMark(isDefault);
    assert Piece(out0, Feature(name, docs, isDefault), template) == item + DocText(docs);
    out := PushDocText(out0 + item, docs);
    StringAssoc(out0, item, DocText(docs));
  }

  lemma FormattedStep(es: seq<Entry>, i: nat, template: string)
    requires i < |es|
    ensures Formatted(es[..i + 1], template) == Formatted(es[..i], template) + Piece(Formatted(es[..i], template), es[i], template)
  {
    assert es[..i + 1][..i] == es[..i];
  }

  /** Add an in-between block to `out0`, after an empty line unless it comes first. */
  method PushInBetween(out0: string, docs: string) returns (out: string)
    ensures out == out0 + Piece(out0, InBetween(docs), "")
  {
    var pad := if out0 == "" then "" else "\n";
    out := out0 + pad + docs + "\n";
  }

  /** Render the entries as a markdown list. */
  method Format(es: seq<Entry>, template: string) returns (out: string)
    ensures out == Formatted(es, template)
  {
    out := "";
    for i := 0 to |es|
      invariant out == Formatted(es[..i], template)
    {
      FormattedStep(es, i, template);
      var e := es[i];
      if e.InBetween? {
        out := PushInBetween(out, e.docs);
      } else {
        out := PushFeature(out, e.name, e.docs, e.isDefault, template);
      }
    }
    assert es[..|es|] == es;
  }

  /** The whole step: read the manifest's features and render them. */
  method Extract(features: Features, template: string) returns (r: Result<string>)
    ensures Parsed(features).Err? ==> r == Err(Parsed(features).error)
    ensures Parsed(features).Ok? ==> r == Ok(Formatted(Parsed(features).value, template))
  {
    var es := Parse(features);
    if es.Err? {
      return Err(es.error);
    }
    var out := Format(es.value, template);
    r := Ok(out);
  }

  // ----- what formatting promises -----

  /** The output is empty exactly when there are no entries, and otherwise ends with a line feed. */
  lemma {:induction false} FormattedShape(es: seq<Entry>, template: string)
    ensures Formatted(es, template) == "" <==> es == []
    ensures es != [] ==> Formatted(es, template)[|Formatted(es, template)| - 1] == '\n'
  {
    if es != [] {
      var out := Formatted(es[..|es| - 1], template);
      var p := Piece(out, es[|es| - 1], template);
      assert p[|p| - 1] == '\n' by {
        match es[|es| - 1]
        case InBetween(_) =>
        case Feature(_, docs, _) =>
          if docs != "" {
            var ls := Lines(docs, '\n', '\r');
            assert ls != [] by { LinesConcat([], docs, '\n', '\r'); if ls == [] { NoLinesEmpty(docs); } }
          }
      }
    }
  }

  lemma NoLinesEmpty(s: string)
    requires Lines(s, '\n', '\r') == []
    ensures s == []
  {
  }

  /** An in-between block is separated by an empty line from what comes before it, but not at the start. */
  lemma InBetweenPadding(es: seq<Entry>, docs: string, template: string)
    ensures es == [] ==> Formatted(es + [InBetween(docs)], template) == docs + "\n"
    ensures es != [] ==> Formatted(es + [InBetween(docs)], template) == Formatted(es, template) + "\n" + docs + "\n"
  {
    var all := es + [InBetween(docs)];
    assert all[..|all| - 1] == es;
    FormattedShape(es, template);
  }

  /** Each entry's rendering follows the rendering of those before it. */
  lemma FormattedAppend(es: seq<Entry>, e: Entry, template: string)
    ensures StartsWith(Formatted(es + [e], template), Formatted(es, template))
  {
    var all := es + [e];
    assert all[..|all| - 1] == es;
  }

  /** Every doc line follows its marker, one rendered line each. */
  function Marked(lines: seq<string>): (r: seq<string>)
    ensures |r| == |lines|
    decreases |lines|
  {
    if lines == [] then [] else Marked(lines[..|lines| - 1]) + [Marker(|lines| - 1) + lines[|lines| - 1]]
  }

  lemma {:induction false} MarkedAt(lines: seq<string>, k: nat)
    requires k < |lines|
    ensures Marked(lines)[k] == Marker(k) + lines[k]
    decreases |lines|
  {
    if k < |lines| - 1 {
      MarkedAt(lines[..|lines| - 1], k);
    }
  }

  /** A doc line behind its marker is still one line. */
  lemma MarkedIsOneLine(i: nat, l: string)
    requires OneLineText(l)
    ensures OneLineText(Marker(i) + l)
  {
    var m := Marker(i) + l;
    assert '\n' !in Marker(i);
    if l == [] {
      assert m == Marker(i);
    } else {
      assert m[|m| - 1] == l[|l| - 1];
    }
  }

  /** Splitting the rendered doc lines again gives one line per doc line, behind its marker. */
  lemma {:induction false} DocLinesSplit(lines: seq<string>)
    requires forall l :: l in lines ==> OneLineText(l)
    ensures Lines(DocLines(lines), '\n', '\r') == Marked(lines)
    decreases |lines|
  {
    if lines != [] {
      var front := lines[..|lines| - 1];
      var n := |lines| - 1;
      var l := lines[n];
      var d := DocLines(front);
      var m := Marker(n) + l;
      assert Lines(d, '\n', '\r') == Marked(front) by {
        assert forall x :: x in front ==> x in lines;
        DocLinesSplit(front);
      }
      assert Lines(m + "\n", '\n', '\r') == [m] by {
        assert l in lines;
        MarkedIsOneLine(n, l);
        OneLine(m, '\n', '\r');
      }
      assert Lines(DocLines(lines), '\n', '\r') == Lines(d, '\n', '\r') + Lines(m + "\n", '\n', '\r') by {
        assert d == [] || d[|d| - 1] == '\n';
        StringAssoc(Marker(n), l, "\n");
        LinesConcat(d, m + "\n", '\n', '\r');
      }
    }
  }

  /**
   * A feature's `##` comments come out as the lines of its list item: the first after an em
   * dash, the others indented by two spaces.
   */
  lemma FeatureDocLines(cs: seq<string>)
    requires cs != []
    requires forall c :: c in cs ==> OneLineText(c)
    ensures DocText(Block(cs)) == DocLines(cs)
    ensures Lines(DocText(Block(cs)), '\n', '\r') == Marked(cs)
  {
    BlockLines(cs);
    DocLinesSplit(cs);
  }

  // ----- examples -----

  /** Blank comment lines of the crate's tests: whitespace only, so empty. */
  lemma BlankCommentExamples()
    ensures CommentLineUnprefixed(" ") == Ok("")
    ensures CommentLineUnprefixed("\t") == Ok("")
    ensures CommentLineUnprefixed("\U{00A0}") == Ok("")
  {
    assert AllWhitespace(" ") && AllWhitespace("\t") && AllWhitespace("\U{00A0}");
  }

  /** Comment lines of the crate's tests that read: one space goes, trailing whitespace goes. */
  lemma TextCommentExamples()
    ensures CommentLineUnprefixed(" Hello") == Ok("Hello")
    ensures CommentLineUnprefixed("  Hello") == Ok(" Hello")
    ensures CommentLineUnprefixed(" Hello ") == Ok("Hello")
  {
    CommentRoundTrip("Hello", "");
    assert " Hello" == " " + "Hello" + "";
    CommentRoundTrip(" Hello", "");
    assert "  Hello" == " " + " Hello" + "";
    CommentRoundTrip("Hello", " ");
    assert " Hello " == " " + "Hello" + " ";
  }

  /** More comment lines of the crate's tests with trailing whitespace. */
  lemma TrailingCommentExamples()
    ensures CommentLineUnprefixed(" Hello  ") == Ok("Hello")
    ensures CommentLineUnprefixed(" Hello\t") == Ok("Hello")
    ensures CommentLineUnprefixed(" Hello\U{00A0}") == Ok("Hello")
  {
    CommentRoundTrip("Hello", "  ");
    assert " Hello  " == " " + "Hello" + "  ";
    CommentRoundTrip("Hello", "\t");
    assert " Hello\t" == " " + "Hello" + "\t";
    CommentRoundTrip("Hello", "\U{00A0}");
    assert " Hello\U{00A0}" == " " + "Hello" + "\U{00A0}";
  }

  /** Comment lines of the crate's tests that start with whitespace other than a space are rejected. */
  lemma BadCommentExamples()
    ensures CommentLineUnprefixed("\tHello") == Err(NoSpace)
    ensures CommentLineUnprefixed("\U{00A0}Hello") == Err(NoSpace)
  {
    assert !AllWhitespace("\tHello") by { assert !IsWhitespace("\tHello"[1]); }
    assert !AllWhitespace("\U{00A0}Hello") by { assert !IsWhitespace("\U{00A0}Hello"[1]); }
  }

  /** Text that can follow `## ` and read back unchanged: empty, or one line without trailing whitespace. */
  predicate Writable(t: string)
  {
    t == [] || ('\n' !in t && !IsWhitespace(t[|t| - 1]))
  }

  /** A `## ` line is a feature comment holding the text after the space, and no in-between comment. */
  lemma FeatureCommentLine(t: string)
    requires Writable(t)
    ensures CommentLine("## " + t, "#!") == Ok(None)
    ensures CommentLine("## " + t, "##") == Ok(Some(t))
  {
    var line := "## " + t;
    assert line[1] == '#';
    assert !StartsWith(line, "#!");
    assert line[..2] == "##";
    if t == [] {
      assert line[2..] == " ";
      assert AllWhitespace(" ");
    } else {
      assert line[2..] == " " + t + "";
      CommentRoundTrip(t, "");
    }
  }

  /** The comment lines that document a feature with the given lines of text. */
  function CommentLines(ts: seq<string>): (r: seq<string>)
    ensures |r| == |ts|
    decreases |ts|
  {
    if ts == [] then [] else CommentLines(ts[..|ts| - 1]) + ["## " + ts[|ts| - 1]]
  }

  lemma KeyDocsSnoc(lines: seq<string>, line: string, acc: (string, string))
    requires KeyDocs(lines) == Ok(acc)
    ensures KeyDocs(lines + [line]) == LineDocs(acc, line)
  {
    assert (lines + [line])[..|lines|] == lines;
  }

  /** Those lines read back as the text: all of it feature docs, none of it in between. */
  lemma {:induction false} CommentLinesRead(ts: seq<string>)
    requires forall t :: t in ts ==> Writable(t)
    ensures KeyDocs(CommentLines(ts)).Ok?
    ensures Comments(CommentLines(ts), "##") == ts
    ensures Comments(CommentLines(ts), "#!") == []
    decreases |ts|
  {
    if ts != [] {
      var front := ts[..|ts| - 1];
      var t := ts[|ts| - 1];
      var lines := CommentLines(ts);
      assert lines[..|lines| - 1] == CommentLines(front);
      assert forall x :: x in front ==> x in ts;
      CommentLinesRead(front);
      assert t in ts;
      FeatureCommentLine(t);
      KeyDocsSnoc(CommentLines(front), "## " + t, KeyDocs(CommentLines(front)).value);
      assert Found("## " + t, "##") == [t] && Found("## " + t, "#!") == [];
      Snoc(ts);
    }
  }

  lemma {:induction false} CommentLinesAreOneLine(ts: seq<string>)
    requires forall t :: t in ts ==> Writable(t)
    ensures forall l :: l in CommentLines(ts) ==> OneLineText(l)
    decreases |ts|
  {
    if ts != [] {
      var t := ts[|ts| - 1];
      assert forall x :: x in ts[..|ts| - 1] ==> x in ts;
      CommentLinesAreOneLine(ts[..|ts| - 1]);
      assert t in ts;
      var l := "## " + t;
      assert '\n' !in l by { assert forall k :: 0 <= k < |t| ==> l[3 + k] == t[k]; }
      assert l[|l| - 1] != '\r' by { if t != [] { assert l[|l| - 1] == t[|t| - 1]; } }
    }
  }

  /** The key in front of those lines contributes just the feature, with the text as its docs. */
  lemma CommentLinesKey(name: string, ts: seq<string>, defaults: Option<seq<Option<string>>>)
    requires name != "default" && forall t :: t in ts ==> Writable(t)
    ensures KeyEntries(Key(name, Block(CommentLines(ts))), defaults)
      == Ok([Feature(name, Block(ts), IsDefault(defaults, name))])
  {
    var lines := CommentLines(ts);
    assert Lines(Block(lines), '\n', '\r') == lines by {
      CommentLinesAreOneLine(ts);
      BlockLines(lines);
    }
    assert KeyDocs(lines) == Ok(("", Block(ts))) by {
      CommentLinesRead(ts);
      KeyDocsAreComments(lines);
    }
    assert [] + [Feature(name, Block(ts), IsDefault(defaults, name))] == [Feature(name, Block(ts), IsDefault(defaults, name))];
  }

  lemma WritableIsOneLine(ts: seq<string>)
    requires forall t :: t in ts ==> Writable(t)
    ensures forall t :: t in ts ==> OneLineText(t)
  {
    assert IsWhitespace('\r');
  }

  /**
   * Round trip through the manifest: a feature documented by `## ` comment lines parses to a
   * feature whose docs are those lines, and renders with each line behind its marker.
   */
  lemma FeatureRoundTrip(name: string, ts: seq<string>, defaults: Option<seq<Option<string>>>)
    requires name != "default" && forall t :: t in ts ==> Writable(t)
    ensures ParseKeys([Key(name, Block(CommentLines(ts)))], defaults)
      == Ok([Feature(name, Block(ts), IsDefault(defaults, name))])
    ensures ts != [] ==> Lines(DocText(Block(ts)), '\n', '\r') == Marked(ts)
  {
    var keys := [Key(name, Block(CommentLines(ts)))];
    assert keys[..0] == [];
    CommentLinesKey(name, ts, defaults);
    assert [] + [Feature(name, Block(ts), IsDefault(defaults, name))] == [Feature(name, Block(ts), IsDefault(defaults, name))];
    if ts != [] {
      WritableIsOneLine(ts);
      FeatureDocLines(ts);
    }
  }
}
