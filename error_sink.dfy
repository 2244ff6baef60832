/**
 * The error sink: log messages and error reports written to one output, each with the
 * fields of the spans that are open at the time, a count per level, and a blank line
 * between consecutive outputs.
 *
 * The output is a sequence of pieces: text, and the start and end of a terminal style.
 * What a terminal shows once the styles are stripped is `Plain(output)`.
 */
module ErrorSinks {
  import opened Wrappers
  import opened Seqs
  import opened Text

  datatype Level = Info | Warning | Error

  function Name(level: Level): string
  {
    match level
    case Info => "info"
    case Warning => "warning"
    case Error => "error"
  }

  /** `BOLD`, and the bold coloured label style of each level. */
  datatype Style = Bold | Label(level: Level)

  datatype Piece = Text(text: string) | Begin(style: Style) | End(style: Style)

  /** The output with its styles stripped. */
  function Plain(out: seq<Piece>): string
  {
    if out == [] then [] else (if out[0].Text? then out[0].text else []) + Plain(out[1..])
  }

  lemma {:induction false} PlainAppend(a: seq<Piece>, b: seq<Piece>)
    ensures Plain(a + b) == Plain(a) + Plain(b)
  {
    if a == [] {
      assert a + b == b;
    } else {
      assert (a + b)[1..] == a[1..] + b;
      PlainAppend(a[1..], b);
    }
  }

  type Field = (string, string)

  // ----- formatting -----

  const LevelWidth: nat := 14

  /** `INDENT`: `LevelWidth + 2` spaces, as wide as a property key with its `: `. */
  const Indent: string := "                "

  /** `{name:>width}`: right-aligned, never truncated. */
  function PadLeft(name: string, width: nat): (r: string)
    ensures |r| == if |name| < width then width else |name|
    ensures EndsWith(r, name) && forall k :: 0 <= k < |r| - |name| ==> r[k] == ' '
  {
    if |name| < width then seq(width - |name|, _ => ' ') + name else name
  }

  /** `format_property_key`: the name right-aligned in its style, then a bold colon and a space. */
  function PropertyKey(name: string, style: Style): seq<Piece>
  {
    [Begin(style), Text(PadLeft(name, LevelWidth)), End(style), Begin(Bold), Text(":"), End(Bold), Text(" ")]
  }

  /** `format_level`. */
  function LevelKey(level: Level): seq<Piece>
  {
    PropertyKey(Name(level), Label(level))
  }

  /** Each line after the first is indented. */
  function Indented(lines: seq<string>): (r: seq<string>)
    ensures |r| == |lines|
    ensures forall k :: 0 <= k < |r| ==> r[k] == (if k == 0 then lines[k] else Indent + lines[k])
  {
    seq(|lines|, k requires 0 <= k < |lines| => if k == 0 then lines[k] else Indent + lines[k])
  }

  /** Every line followed by a line feed. */
  function Terminated(lines: seq<string>): string
  {
    if lines == [] then [] else Terminated(lines[..|lines| - 1]) + lines[|lines| - 1] + "\n"
  }

  lemma TerminatedEnd(lines: seq<string>)
    ensures var r := Terminated(lines); (r == [] <==> lines == []) && (r == [] || r[|r| - 1] == '\n')
  {
  }

  lemma TerminatedSnoc(lines: seq<string>, line: string)
    ensures Terminated(lines + [line]) == Terminated(lines) + line + "\n"
  {
    assert (lines + [line])[..|lines|] == lines;
  }

  lemma IndentedSnoc(lines: seq<string>, i: nat)
    requires i < |lines|
    ensures Indented(lines[..i + 1]) == Indented(lines[..i]) + [if i != 0 then Indent + lines[i] else lines[i]]
  {
  }

  /** What `format_message` produces. */
  function MessageText(message: string): string
  {
    Terminated(Indented(Lines(message, '\n', '\r')))
  }

  /** Splitting at line feeds alone takes `Terminated` apart again. */
  lemma {:induction false} TerminatedLines(lines: seq<string>)
    requires forall k :: 0 <= k < |lines| ==> '\n' !in lines[k]
    ensures Lines(Terminated(lines), '\n', '\n') == lines
  {
    if lines != [] {
      var init, last := lines[..|lines| - 1], lines[|lines| - 1];
      TerminatedSplit(lines);
      TerminatedLines(init);
      TerminatedEnd(init);
      AppendLine(Terminated(init), last);
    }
  }

  lemma TerminatedSplit(lines: seq<string>)
    requires lines != []
    requires forall k :: 0 <= k < |lines| ==> '\n' !in lines[k]
    ensures var init := lines[..|lines| - 1];
      && lines == init + [lines[|lines| - 1]]
      && Terminated(lines) == Terminated(init) + lines[|lines| - 1] + "\n"
      && (forall k :: 0 <= k < |init| ==> '\n' !in init[k])
      && '\n' !in lines[|lines| - 1]
  {
  }

  /** One more line feed-terminated line adds exactly that line. */
  lemma AppendLine(a: string, last: string)
    requires a == [] || a[|a| - 1] == '\n'
    requires '\n' !in last
    ensures Lines(a + last + "\n", '\n', '\n') == Lines(a, '\n', '\n') + [last]
  {
    Assoc(a, last, "\n");
    LinesConcat(a, last + "\n", '\n', '\n');
    OneLine(last, '\n', '\n');
    assert DropLast(last, '\n') == last;
  }

  /**
   * `format_message` ends every line of the message with a line feed and indents each line
   * after the first: split at its line feeds, its output gives back exactly those lines.
   * An empty message gives no text at all.
   */
  lemma MessageLines(message: string)
    ensures Lines(MessageText(message), '\n', '\n') == Indented(Lines(message, '\n', '\r'))
    ensures MessageText(message) == [] <==> message == []
  {
    var lines := Lines(message, '\n', '\r');
    LinesHaveNoLineFeed(message, '\n', '\r');
    var ind := Indented(lines);
    forall k | 0 <= k < |ind|
      ensures '\n' !in ind[k]
    {
      assert lines[k] in lines;
      assert '\n' !in Indent;
    }
    TerminatedLines(ind);
    if message != [] {
      assert lines != [];
      assert MessageText(message) != [];
    }
  }

  /** `format_message`. */
  method FormatMessage(message: string) returns (out: string)
    ensures out == MessageText(message)
  {
    var lines := Lines(message, '\n', '\r');
    out := [];
    for i := 0 to |lines|
      invariant out == Terminated(Indented(lines[..i]))
    {
      var piece := if i != 0 then Indent + lines[i] else lines[i];
      IndentedSnoc(lines, i);
      TerminatedSnoc(Indented(lines[..i]), piece);
      out := out + piece + "\n";
    }
    assert lines[..|lines|] == lines;
  }

  /** `format_field`: a bold key and the value as a message. */
  function FieldPieces(field: Field): seq<Piece>
  {
    PropertyKey(field.0, Bold) + [Text(MessageText(field.1))]
  }

  function FieldsPieces(fields: seq<Field>): seq<Piece>
  {
    if fields == [] then [] else FieldsPieces(fields[..|fields| - 1]) + FieldPieces(fields[|fields| - 1])
  }

  /** The loop `for (name, value) in fields { out.push_str(&format_field(name, value)) }`. */
  method PushFields(out0: seq<Piece>, fields: seq<Field>) returns (out: seq<Piece>)
    ensures out == out0 + FieldsPieces(fields)
  {
    out := out0;
    for i := 0 to |fields|
      invariant out == out0 + FieldsPieces(fields[..i])
    {
      var value := FormatMessage(fields[i].1);
      assert fields[..i + 1][..i] == fields[..i];
      Assoc(out0, FieldsPieces(fields[..i]), FieldPieces(fields[i]));
      out := out + (PropertyKey(fields[i].0, Bold) + [Text(value)]);
    }
    assert fields[..|fields|] == fields;
  }

  // ----- the tally -----

  datatype Tally = Tally(infos: nat, warnings: nat, errors: nat)
  {
    function Count(level: Level): nat
    {
      match level
      case Info => infos
      case Warning => warnings
      case Error => errors
    }

    /** `*tally.get_mut(level) += 1`: exactly the counter for the level goes up. */
    function Inc(level: Level): (r: Tally)
      ensures r.infos == infos + (if level == Info then 1 else 0)
      ensures r.warnings == warnings + (if level == Warning then 1 else 0)
      ensures r.errors == errors + (if level == Error then 1 else 0)
    {
      match level
      case Info => this.(infos := infos + 1)
      case Warning => this.(warnings := warnings + 1)
      case Error => this.(errors := errors + 1)
    }
  }

  /** `3 errors`, `1 warning`. */
  function Counted(n: nat, noun: string): string
  {
    Decimal(n) + " " + noun + (if n == 1 then "" else "s")
  }

  /** `Counted` with its styles: the count in bold, the noun in the label style. */
  function CountedPieces(n: nat, level: Level): seq<Piece>
  {
    [Begin(Bold), Text(Decimal(n) + " "), End(Bold), Begin(Label(level)), Text(Name(level) + (if n == 1 then "" else "s")), End(Label(level))]
  }

  /** What `print_tally` writes. */
  function TallyPieces(t: Tally): seq<Piece>
  {
    var any := t.errors != 0 || t.warnings != 0;
    (if any then [Text("\n")] else [])
      + (if t.errors != 0 then CountedPieces(t.errors, Error) else [])
      + (if t.warnings != 0 then (if t.errors != 0 then [Begin(Bold), Text(", "), End(Bold)] else []) + CountedPieces(t.warnings, Warning) else [])
      + (if any then [Text("\n")] else [])
  }

  /** The nonzero counts of errors and then warnings. */
  function TallyParts(t: Tally): seq<string>
  {
    (if t.errors != 0 then [Counted(t.errors, "error")] else []) + (if t.warnings != 0 then [Counted(t.warnings, "warning")] else [])
  }

  /**
   * With no errors and no warnings `print_tally` writes nothing; otherwise a line of the
   * nonzero counts joined by `, `, errors first, each noun singular exactly for a count of 1.
   * Infos are never shown.
   */
  lemma TallyText(t: Tally)
    ensures TallyPieces(t) == [] <==> t.errors == 0 && t.warnings == 0
    ensures Plain(TallyPieces(t)) == if TallyParts(t) == [] then "" else "\n" + Join(TallyParts(t), ", ") + "\n"
  {
    if t.errors != 0 && t.warnings != 0 {
      TallyBoth(t);
    } else if t.errors != 0 {
      TallyOne(t.errors, Error, "error");
      assert TallyPieces(t) == [Text("\n")] + CountedPieces(t.errors, Error) + [] + [Text("\n")];
      assert TallyParts(t) == [Counted(t.errors, "error")];
    } else if t.warnings != 0 {
      TallyOne(t.warnings, Warning, "warning");
      assert TallyPieces(t) == [Text("\n")] + [] + ([] + CountedPieces(t.warnings, Warning)) + [Text("\n")];
      assert TallyParts(t) == [Counted(t.warnings, "warning")];
    }
  }

  /** A tally line with a single count. */
  lemma TallyOne(n: nat, level: Level, noun: string)
    requires noun == Name(level)
    ensures Plain([Text("\n")] + CountedPieces(n, level) + [] + [Text("\n")]) == "\n" + Counted(n, noun) + "\n"
    ensures Plain([Text("\n")] + [] + ([] + CountedPieces(n, level)) + [Text("\n")]) == "\n" + Counted(n, noun) + "\n"
  {
    var nl, c := [Text("\n")], CountedPieces(n, level);
    PlainPieces(nl);
    CountedPlain(n, level);
    assert nl + c + [] == nl + c;
    assert nl + [] + ([] + c) == nl + c;
    PlainAppend(nl + c, nl);
    PlainAppend(nl, c);
  }

  /** A tally line with both counts. */
  lemma TallyBoth(t: Tally)
    requires t.errors != 0 && t.warnings != 0
    ensures Plain(TallyPieces(t)) == "\n" + Join(TallyParts(t), ", ") + "\n"
  {
    var nl, comma := [Text("\n")], [Begin(Bold), Text(", "), End(Bold)];
    PlainPieces(nl);
    PlainPieces(comma);
    CountedPlain(t.errors, Error);
    CountedPlain(t.warnings, Warning);
    var e := CountedPieces(t.errors, Error);
    var w := CountedPieces(t.warnings, Warning);
    assert TallyPieces(t) == nl + e + (comma + w) + nl;
    PlainAppend(nl + e + (comma + w), nl);
    PlainAppend(nl + e, comma + w);
    PlainAppend(nl, e);
    PlainAppend(comma, w);
    JoinCons(Counted(t.errors, "error"), [Counted(t.warnings, "warning")], ", ");
  }

  /** Stripping the styles from a piece list, from its `k`-th piece on. */
  lemma PlainStep(p: seq<Piece>, k: nat)
    requires k < |p|
    ensures Plain(p[k..]) == (if p[k].Text? then p[k].text else []) + Plain(p[k + 1..])
  {
    assert p[k..][1..] == p[k + 1..];
  }

  /** A list of up to six pieces, stripped. */
  lemma PlainPieces(p: seq<Piece>)
    requires |p| <= 6
    ensures Plain(p) == Concat(seq(|p|, k requires 0 <= k < |p| => if p[k].Text? then p[k].text else []))
  {
    var texts := seq(|p|, k requires 0 <= k < |p| => if p[k].Text? then p[k].text else []);
    var k := |p|;
    assert p[k..] == [];
    while k > 0
      invariant 0 <= k <= |p| && Plain(p[k..]) == Concat(texts[k..])
      decreases k
    {
      k := k - 1;
      PlainStep(p, k);
      assert texts[k..][1..] == texts[k + 1..];
    }
    assert p[0..] == p && texts[0..] == texts;
  }

  lemma CountedPlain(n: nat, level: Level)
    ensures Plain(CountedPieces(n, level)) == Counted(n, Name(level))
  {
    var p := CountedPieces(n, level);
    PlainPieces(p);
    var texts := seq(|p|, k requires 0 <= k < |p| => if p[k].Text? then p[k].text else []);
    assert texts == [[], Decimal(n) + " ", [], [], Name(level) + (if n == 1 then "" else "s"), []];
    assert Concat(texts) == Decimal(n) + " " + (Name(level) + (if n == 1 then "" else "s")) by {
      assert Concat(texts[5..]) == [];
      assert Concat(texts[4..]) == texts[4];
      assert Concat(texts[3..]) == texts[4];
      assert Concat(texts[2..]) == texts[4];
      assert Concat(texts[1..]) == texts[1] + texts[4];
    }
  }

  // ----- reports -----

  /** `ReportFields`: a level, a message and the fields the sink had when the report was made. */
  datatype ReportFields = ReportFields(level: Level, message: string, fields: seq<Field>)

  /** One error of a report's chain: a `ReportFields`, or any other error as its `Display` text. */
  datatype Cause = FieldsCause(report: ReportFields) | TextCause(text: string)

  /** A report: what `downcast_ref::<ReportFields>` finds in it, and its chain of causes, outermost first. */
  datatype Report = Report(found: Option<ReportFields>, chain: seq<Cause>)

  /** `Report::from(ReportFields)`. */
  function FromFields(r: ReportFields): Report
  {
    Report(Some(r), [FieldsCause(r)])
  }

  /** `wrap_err`: a text cause in front; the `ReportFields` inside is still found. */
  function WrapErr(r: Report, message: string): Report
  {
    Report(r.found, [TextCause(message)] + r.chain)
  }

  /** The level a report is shown and counted at. */
  function ReportLevel(r: Report): Level
  {
    if r.found.Some? then r.found.value.level else Error
  }

  /** The message of a cause; an empty `Display` text is shown as `<empty message>`. */
  function CauseMessage(c: Cause): (r: string)
    ensures c.TextCause? ==> r != [] && (c.text != [] ==> r == c.text)
  {
    match c
    case FieldsCause(r) => r.message
    case TextCause(t) => if t == [] then "<empty message>" else t
  }

  /** The lines of one cause: a `cause` key before every cause but the first. */
  function CausePieces(k: nat, c: Cause): seq<Piece>
  {
    (if k == 0 then [] else PropertyKey("cause", Bold)) + [Text(MessageText(CauseMessage(c)))]
  }

  function ChainPieces(chain: seq<Cause>): seq<Piece>
  {
    if chain == [] then [] else ChainPieces(chain[..|chain| - 1]) + CausePieces(|chain| - 1, chain[|chain| - 1])
  }

  /** The fields of the `ReportFields` causes, in chain order. */
  function Collected(chain: seq<Cause>): seq<Field>
  {
    if chain == [] then []
    else
      var last := chain[|chain| - 1];
      Collected(chain[..|chain| - 1]) + (if last.FieldsCause? then last.report.fields else [])
  }

  // ----- spans -----

  /** `fields()`: frames from the innermost, and within a frame from the most recent field. */
  function FieldsOf(spans: seq<seq<Field>>): seq<Field>
  {
    if spans == [] then [] else FieldsOf(spans[1..]) + Reverse(spans[0])
  }

  lemma {:induction false} ReverseConcat<T>(a: seq<T>, b: seq<T>)
    ensures Reverse(a + b) == Reverse(b) + Reverse(a)
    decreases |a|
  {
    if a == [] {
      assert a + b == b;
    } else {
      assert (a + b)[1..] == a[1..] + b;
      ReverseConcat(a[1..], b);
    }
  }

  /** So the fields come out exactly in the reverse of the order they were added, across all frames. */
  lemma {:induction false} FieldsOrder(spans: seq<seq<Field>>)
    ensures FieldsOf(spans) == Reverse(Concat(spans))
  {
    if spans != [] {
      FieldsOrder(spans[1..]);
      ReverseConcat(spans[0], Concat(spans[1..]));
    }
  }

  /** A message: the separator, the level, the message and the sink's fields. */
  function MessagePieces(written: bool, level: Level, message: string, fields: seq<Field>): seq<Piece>
  {
    Separator(written) + LevelKey(level) + [Text(MessageText(message))] + FieldsPieces(fields)
  }

  /**
   * A report: the separator, the level, its chain, the fields it carries, and the sink's
   * fields only when it carries none of its own.
   */
  function ReportPieces(written: bool, r: Report, fields: seq<Field>): seq<Piece>
  {
    Separator(written) + LevelKey(ReportLevel(r)) + ChainPieces(r.chain) + FieldsPieces(Collected(r.chain))
      + (if r.found.None? then FieldsPieces(fields) else [])
  }

  /** `prepare_write`. */
  function Separator(written: bool): seq<Piece>
  {
    if written then [Text("\n")] else []
  }

  /** What a message or report shows starts with a line feed exactly when something was written before. */
  lemma Separated(written: bool, level: Level, rest: seq<Piece>)
    ensures var p := Plain(Separator(written) + LevelKey(level) + rest); p != [] && (p[0] == '\n' <==> written)
  {
    PlainAppend(Separator(written) + LevelKey(level), rest);
    PlainAppend(Separator(written), LevelKey(level));
    var key := LevelKey(level);
    assert Plain(key) == PadLeft(Name(level), LevelWidth) + Plain(key[2..]);
    assert PadLeft(Name(level), LevelWidth)[0] == ' ';
  }

  class ErrorSink {
    /** A frame of fields per open span, outermost first. */
    var spans: seq<seq<Field>>
    var tally: Tally
    var wasWrittenTo: bool
    /** Everything written to the underlying writer. */
    var output: seq<Piece>

    constructor ()
      ensures spans == [] && tally == Tally(0, 0, 0) && !wasWrittenTo && output == []
    {
      spans := [];
      tally := Tally(0, 0, 0);
      wasWrittenTo := false;
      output := [];
    }

    function Fields(): seq<Field>
      reads this
    {
      FieldsOf(spans)
    }

    /** `write_str`: every write marks the sink as written to. */
    method WriteStr(out: seq<Piece>)
      modifies this
      ensures output == old(output) + out && wasWrittenTo
      ensures spans == old(spans) && tally == old(tally)
    {
      wasWrittenTo := true;
      output := output + out;
    }

    /** `write`. */
    method Write(value: string)
      modifies this
      ensures output == old(output) + [Text(value)] && wasWrittenTo
      ensures spans == old(spans) && tally == old(tally)
    {
      WriteStr([Text(value)]);
    }

    method SetWrittenTo(value: bool)
      modifies this
      ensures wasWrittenTo == value && output == old(output) && spans == old(spans) && tally == old(tally)
    {
      wasWrittenTo := value;
    }

    /** `ErrorSinkInner::message`. */
    method Message(level: Level, message: string)
      modifies this
      ensures output == old(output) + MessagePieces(old(wasWrittenTo), level, message, old(Fields()))
      ensures tally == old(tally).Inc(level) && wasWrittenTo && spans == old(spans)
    {
      var out := Separator(wasWrittenTo);
      tally := tally.Inc(level);
      var text := FormatMessage(message);
      out := out + LevelKey(level) + [Text(text)];
      out := PushFields(out, Fields());
      WriteStr(out);
    }

    /** `ErrorSinkInner::report`. */
    method LogReport(report: Report)
      modifies this
      ensures output == old(output) + ReportPieces(old(wasWrittenTo), report, old(Fields()))
      ensures tally == old(tally).Inc(ReportLevel(report)) && wasWrittenTo && spans == old(spans)
    {
      var out := Separator(wasWrittenTo);
      var level, hasReportFields;
      if report.found.Some? {
        level, hasReportFields := report.found.value.level, true;
      } else {
        level, hasReportFields := Error, false;
      }
      tally := tally.Inc(level);
      out := out + LevelKey(level);
      var fields;
      out, fields := PushChain(out, report.chain);
      out := PushFields(out, fields);
      if !hasReportFields {
        out := PushFields(out, Fields());
      }
      WriteStr(out);
    }

    /** `empty_span`: a new frame on top; the handle remembers its index. */
    method EmptySpan() returns (s: SinkSpan)
      modifies this
      ensures fresh(s) && s.sink == this && s.index == |old(spans)|
      ensures spans == old(spans) + [[]] && output == old(output) && tally == old(tally) && wasWrittenTo == old(wasWrittenTo)
    {
      s := new SinkSpan(this, |spans|);
      spans := spans + [[]];
    }

    /** `span`: a new frame holding one field. */
    method Span(name: string, value: string) returns (s: SinkSpan)
      modifies this
      ensures fresh(s) && s.sink == this && s.index == |old(spans)|
      ensures spans == old(spans) + [[(name, value)]] && output == old(output) && tally == old(tally)
      ensures wasWrittenTo == old(wasWrittenTo)
    {
      s := EmptySpan();
      s.Add(name, value);
      assert [] + [(name, value)] == [(name, value)];
    }

    /** `log`: an event that has not been shown yet. */
    method Log(level: Level, message: string) returns (e: Event)
      ensures fresh(e) && e.sink == this && e.pending == Some((level, message))
    {
      e := new Event(this, level, message);
    }

    /** `print_tally`: written even when it is empty, so the sink counts as written to. */
    method PrintTally()
      modifies this
      ensures output == old(output) + TallyPieces(old(tally)) && wasWrittenTo
      ensures spans == old(spans) && tally == old(tally)
    {
      var errors, warnings := tally.errors, tally.warnings;
      var out: seq<Piece> := [];
      if errors != 0 || warnings != 0 {
        out := out + [Text("\n")];
      }
      if errors != 0 {
        out := out + CountedPieces(errors, Error);
      }
      if warnings != 0 {
        if errors != 0 {
          out := out + [Begin(Bold), Text(", "), End(Bold)];
        }
        out := out + CountedPieces(warnings, Warning);
      }
      if errors != 0 || warnings != 0 {
        out := out + [Text("\n")];
      }
      WriteStr(out);
    }
  }

  /** The loop over `report.chain()`: each cause's lines, and the fields its `ReportFields` carry. */
  method PushChain(out0: seq<Piece>, chain: seq<Cause>) returns (out: seq<Piece>, fields: seq<Field>)
    ensures out == out0 + ChainPieces(chain) && fields == Collected(chain)
  {
    out, fields := out0, [];
    for i := 0 to |chain|
      invariant out == out0 + ChainPieces(chain[..i]) && fields == Collected(chain[..i])
    {
      var piece := CausePiece(i, chain[i]);
      ChainStep(chain, i);
      Assoc(out0, ChainPieces(chain[..i]), CausePieces(i, chain[i]));
      out := out + piece;
      if chain[i].FieldsCause? {
        fields := fields + chain[i].report.fields;
      }
    }
    assert chain[..|chain|] == chain;
  }

  /** One cause as `report` formats it. */
  method CausePiece(i: nat, c: Cause) returns (piece: seq<Piece>)
    ensures piece == CausePieces(i, c)
  {
    var text := FormatMessage(CauseMessage(c));
    piece := (if i == 0 then [] else PropertyKey("cause", Bold)) + [Text(text)];
  }

  lemma ChainStep(chain: seq<Cause>, i: nat)
    requires i < |chain|
    ensures ChainPieces(chain[..i + 1]) == ChainPieces(chain[..i]) + CausePieces(i, chain[i])
    ensures Collected(chain[..i + 1]) == Collected(chain[..i]) + (if chain[i].FieldsCause? then chain[i].report.fields else [])
  {
    assert chain[..i + 1][..i] == chain[..i];
  }

  /** `Event`: a message that is shown when it is dropped, unless it became a report. */
  class Event {
    const sink: ErrorSink
    var pending: Option<(Level, string)>

    constructor (sink: ErrorSink, level: Level, message: string)
      ensures this.sink == sink && pending == Some((level, message))
    {
      this.sink := sink;
      pending := Some((level, message));
    }

    /** `into_report`: takes the message, with the sink's current fields; nothing is written. */
    method IntoReport() returns (r: Report)
      requires pending.Some?
      modifies this
      ensures pending == None
      ensures r == FromFields(ReportFields(old(pending).value.0, old(pending).value.1, sink.Fields()))
      ensures ReportLevel(r) == old(pending).value.0
    {
      var (level, message) := pending.value;
      pending := None;
      r := FromFields(ReportFields(level, message, sink.Fields()));
    }

    /** `drop`: the pending message, if any, is written once. */
    method Drop()
      modifies sink
      ensures old(pending).None? ==> unchanged(sink)
      ensures old(pending).Some? ==>
        && sink.output == old(sink.output) + MessagePieces(old(sink.wasWrittenTo), pending.value.0, pending.value.1, old(sink.Fields()))
        && sink.tally == old(sink.tally).Inc(pending.value.0) && sink.wasWrittenTo && sink.spans == old(sink.spans)
    {
      if pending.Some? {
        sink.Message(pending.value.0, pending.value.1);
      }
    }
  }

  /** `ErrorSinkSpan`: the handle of one frame. */
  class SinkSpan {
    const sink: ErrorSink
    const index: nat

    constructor (sink: ErrorSink, index: nat)
      ensures this.sink == sink && this.index == index
    {
      this.sink := sink;
      this.index := index;
    }

    /** `add`: a field at the end of this handle's own frame. */
    method Add(name: string, value: string)
      requires index < |sink.spans|
      modifies sink
      ensures sink.spans == old(sink.spans)[index := old(sink.spans)[index] + [(name, value)]]
      ensures sink.output == old(sink.output) && sink.tally == old(sink.tally) && sink.wasWrittenTo == old(sink.wasWrittenTo)
    {
      sink.spans := sink.spans[index := sink.spans[index] + [(name, value)]];
    }

    /** `drop`: the top frame goes, whichever it is. */
    method Drop()
      modifies sink
      ensures sink.spans == if old(sink.spans) == [] then [] else old(sink.spans)[..|old(sink.spans)| - 1]
      ensures sink.output == old(sink.output) && sink.tally == old(sink.tally) && sink.wasWrittenTo == old(sink.wasWrittenTo)
    {
      if sink.spans != [] {
        sink.spans := sink.spans[..|sink.spans| - 1];
      }
    }
  }
}
